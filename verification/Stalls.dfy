/** Whether a transfer is over within n + 5 calls, decided by the messages the client's channel may
    carry. */
module Stalls {
  import opened Bytes
  import opened Options
  import opened Packets
  import opened Transport
  import opened Fsm
  import opened ClientFsm
  import opened SessionProofs
  import opened ClientRuns

  /** Every message that a step finds at the front of the channel is one of these. */
  ghost predicate Over(inputs: seq<Input>, carried: iset<Message>) {
    forall i :: 0 <= i < |inputs| ==> Allowed(inputs[i], carried)
  }

  ghost predicate Allowed(i: Input, carried: iset<Message>) {
    i.Move? && i.rx != [] ==> i.rx[0] in carried
  }

  /** A response that leads on to BLOCK. */
  predicate Opens(m: Message, maxLen: nat) {
    var got := PollTx([m], ResponseMsg, maxLen);
    got.Some? && got.value.id != 0
  }

  ghost predicate CarriesOpening(carried: iset<Message>, maxLen: nat) {
    exists m :: m in carried && Opens(m, maxLen)
  }

  ghost predicate CarriesCorrupt(carried: iset<Message>, maxLen: nat) {
    exists m :: m in carried && Corrupt(m, maxLen)
  }

  ghost predicate CarriesEmpty(carried: iset<Message>, maxLen: nat) {
    exists m :: m in carried && EmptyMore(m, maxLen)
  }

  /** The messages include one of each kind that it takes to stall. */
  ghost predicate CanStall(carried: iset<Message>, maxLen: nat) {
    && CarriesOpening(carried, maxLen) && CarriesCorrupt(carried, maxLen)
    && CarriesEmpty(carried, maxLen)
  }

  /** In no run over these messages does a transfer take more than n + 5 calls. */
  ghost predicate AlwaysInTime(c: Client, carried: iset<Message>) {
    forall inputs: seq<Input>, t: Trace ::
      Reached(c, inputs, t) && Over(inputs, carried) && (InTransfer(t.client) || t.client.current == Terminate)
      ==> t.calls <= |t.client.original| + 5
  }

  // ---------- without one of the kinds ----------

  /** What a step may add, and which message that takes. */
  lemma StepAdds(t: Trace, i: Input)
    requires TraceInv(t)
    ensures var u, maxLen := TraceStep(t, i), t.client.cfg.maxLen;
      && u.client.cfg == t.client.cfg
      && (u.stalls > t.stalls ==>
            && t.rejected && t.client.peer.id != 0
            && i.Move? && i.rx != [] && EmptyMore(i.rx[0], maxLen))
      && (u.rejected && !t.rejected ==> i.Move? && i.rx != [] && Corrupt(i.rx[0], maxLen))
  {
    hide EncodeTx, CanSendTx, Push, HearBlock, PollTx, PushedAck, Corrupt, EmptyMore, Counted, CallsAt;
    if i.Move? && t.client.phase.AwaitBlock? {
      HearBlockOutcome(t.client, i.rx, i.expired);
    }
  }

  /** Only a response gives the client terms with an identifier. */
  lemma StepOpens(t: Trace, i: Input)
    requires TraceInv(t)
    ensures var u := TraceStep(t, i);
      u.client.peer.id == 0 || t.client.peer.id != 0
      || (i.Move? && i.rx != [] && Opens(i.rx[0], t.client.cfg.maxLen))
  {
    hide HearResponse, Step, Opens, Start, Stays, PushedAck, Corrupt, Counted, CallsAt, Residue,
      ClientPhaseInv;
    if i.StartCall? {
      StartKeepsPeer(t.client, i.buffer);
    } else if t.client.phase == AwaitResponse {
      HearingOpens(t.client, i.rx, i.tx, i.expired);
    } else {
      StepKeepsPeer(t.client, i.rx, i.tx, i.expired);
    }
  }

  lemma HearingOpens(c: Client, rx: Channel, tx: Channel, expired: bool)
    requires c.Valid() && c.phase == AwaitResponse
    ensures Step(c, rx, tx, expired).client.peer.id == 0 || c.peer.id != 0
            || (rx != [] && Opens(rx[0], c.cfg.maxLen))
  {
    hide PollTx;
    if rx != [] {
      OnlyTheFront(rx, c.cfg.maxLen);
    } else {
      NothingToPoll(c.cfg.maxLen);
    }
  }

  lemma StepKeepsPeer(c: Client, rx: Channel, tx: Channel, expired: bool)
    requires c.Valid() && c.phase != AwaitResponse
    ensures Step(c, rx, tx, expired).client.peer in {c.peer, NO_CONFIG}
  {
    hide EncodeTx, CanSendTx, Push, HearBlock;
    if c.phase.AwaitBlock? {
      HearBlockKeepsPeer(c, rx, expired);
    }
  }

  lemma StartKeepsPeer(c: Client, buffer: Option<seq<byte>>)
    requires c.Valid()
    ensures Start(c, buffer).peer == c.peer
  {}

  lemma HearBlockKeepsPeer(c: Client, rx: Channel, expired: bool)
    requires c.Valid() && c.phase.AwaitBlock?
    ensures HearBlock(c, rx, expired).peer == c.peer
  {
    hide PollBlock, GetContinue;
  }

  lemma OnlyTheFront(q: Channel, maxLen: nat)
    requires q != []
    ensures PollTx(q, ResponseMsg, maxLen) == PollTx([q[0]], ResponseMsg, maxLen)
  {}

  lemma NothingToPoll(maxLen: nat)
    ensures PollTx([], ResponseMsg, maxLen) == None
  {}

  ghost predicate NoStall(t: Trace, carried: iset<Message>, maxLen: nat) {
    && TraceInv(t) && t.client.cfg.maxLen == maxLen && t.stalls == 0
    && (CarriesOpening(carried, maxLen) || t.client.peer.id == 0)
    && (CarriesCorrupt(carried, maxLen) || !t.rejected)
  }

  lemma NoStallStep(t: Trace, i: Input, carried: iset<Message>, maxLen: nat)
    requires NoStall(t, carried, maxLen) && Allowed(i, carried) && !CanStall(carried, maxLen)
    ensures NoStall(TraceStep(t, i), carried, maxLen)
  {
    hide TraceStep, TraceInv, Opens, Corrupt, EmptyMore;
    TraceStepInv(t, i);
    StepAdds(t, i);
    StepOpens(t, i);
  }

  lemma {:induction false} NoStallRun(t: Trace, inputs: seq<Input>, carried: iset<Message>, maxLen: nat)
    requires NoStall(t, carried, maxLen) && Over(inputs, carried) && !CanStall(carried, maxLen)
    ensures NoStall(TraceRun(t, inputs), carried, maxLen)
    decreases |inputs|
  {
    hide TraceStep, Allowed, CanStall, CarriesOpening, CarriesCorrupt, Counted, CallsAt, Residue;
    if inputs != [] {
      NoStallStep(t, inputs[0], carried, maxLen);
      assert forall i :: 0 <= i < |inputs[1..]| ==> inputs[1..][i] == inputs[i + 1];
      NoStallRun(TraceStep(t, inputs[0]), inputs[1..], carried, maxLen);
    }
  }

  // ---------- with all three kinds ----------

  lemma {:induction false} RunAppend(t: Trace, a: seq<Input>, b: seq<Input>)
    requires t.client.Valid()
    ensures TraceRun(t, a + b) == TraceRun(TraceRun(t, a), b)
    decreases |a|
  {
    hide TraceStep;
    if a == [] {
      assert a + b == b;
    } else {
      assert (a + b)[1..] == a[1..] + b;
      RunAppend(TraceStep(t, a[0]), a[1..], b);
    }
  }

  lemma RunThree(t: Trace, a: Input, b: Input, c: Input)
    requires t.client.Valid()
    ensures TraceRun(t, [a, b, c]) == TraceStep(TraceStep(TraceStep(t, a), b), c)
  {
    hide TraceStep;
    RunCons(t, a, [b, c]);
    RunCons(TraceStep(t, a), b, [c]);
    RunCons(TraceStep(TraceStep(t, a), b), c, []);
    assert [a] + [b, c] == [a, b, c] && [b] + [c] == [b, c] && [c] + [] == [c];
  }

  lemma RunCons(t: Trace, i: Input, rest: seq<Input>)
    requires t.client.Valid()
    ensures TraceRun(t, [i] + rest) == TraceRun(TraceStep(t, i), rest)
  {
    hide TraceStep;
    assert ([i] + rest)[1..] == rest;
  }

  /** An activation, or a step that finds nothing. */
  const TICK := Move([], [], false)

  /** Between two activations, with BLOCK to follow. */
  predicate AtBlock(t: Trace, n: nat, calls: nat) {
    && t.client.phase == AtLoop && t.client.next == Block && |t.client.original| == n
    && t.calls == calls
  }

  /** A rejected payload followed by an empty frame uses up a call and stores nothing. */
  lemma CorruptThenEmptyStalls(t: Trace, corrupt: Message, empty: Message)
    requires TraceInv(t) && t.client.phase == AtLoop && t.client.next == Block
    requires Corrupt(corrupt, t.client.cfg.maxLen) && EmptyMore(empty, t.client.cfg.maxLen)
    ensures var u := TraceRun(t, [TICK, Move([corrupt], [], false), Move([empty], [], false)]);
      && AtBlock(u, |t.client.original|, t.calls + 1) && u.stalls == t.stalls + 1
      && u.client.offset == t.client.offset && u.client.current == Block
      && u.client.cfg == t.client.cfg && TraceInv(u)
  {
    hide Counted, CallsAt, Corrupt, EmptyMore, HearBlock, Activate, ClientPhaseInv;
    RunThree(t, TICK, Move([corrupt], [], false), Move([empty], [], false));
    var a := TraceStep(t, TICK);
    TraceStepInv(t, TICK);
    ActivateCounts(t.client);
    var b := TraceStep(a, Move([corrupt], [], false));
    TraceStepInv(a, Move([corrupt], [], false));
    HearBlockOutcome(a.client, [corrupt], false);
    CorruptIsNotAccepted(a.client, corrupt);
    TraceStepInv(b, Move([empty], [], false));
    HearBlockOutcome(b.client, [empty], false);
  }

  lemma CorruptIsNotAccepted(c: Client, m: Message)
    requires c.Valid() && c.phase.AwaitBlock? && Corrupt(m, c.cfg.maxLen)
    ensures var r := HearBlock(c, [m], false);
      r.phase.AwaitBlock? && r.offset == c.offset && r.cfg == c.cfg
  {
    hide ReadBlock, Store;
  }

  lemma {:induction false} ManyStalls(t: Trace, corrupt: Message, empty: Message, k: nat)
    returns (inputs: seq<Input>)
    requires TraceInv(t) && t.client.phase == AtLoop && t.client.next == Block
    requires Corrupt(corrupt, t.client.cfg.maxLen) && EmptyMore(empty, t.client.cfg.maxLen)
    ensures Over(inputs, iset{corrupt, empty})
    ensures var u := TraceRun(t, inputs); AtBlock(u, |t.client.original|, t.calls + k)
    ensures if k == 0 then inputs == [] else TraceRun(t, inputs).client.current == Block
    decreases k
  {
    hide TraceStep, TraceRun, Counted, CallsAt, Residue, ClientPhaseInv, Corrupt, EmptyMore;
    if k == 0 {
      inputs := [];
      NoInputs(t);
    } else {
      var one := [TICK, Move([corrupt], [], false), Move([empty], [], false)];
      CorruptThenEmptyStalls(t, corrupt, empty);
      var u := TraceRun(t, one);
      var more := ManyStalls(u, corrupt, empty, k - 1);
      NoInputs(u);
      RunAppend(t, one, more);
      inputs := one + more;
    }
  }

  lemma NoInputs(t: Trace)
    requires t.client.Valid()
    ensures TraceRun(t, []) == t
  {}

  const ONE_BYTE := StartCall(Some([0]))

  lemma Asks(c: Client) returns (t: Trace)
    requires Initial(c)
    ensures t == TraceRun(Observed(c), [ONE_BYTE, TICK, TICK])
    ensures t.client.Valid() && t.client.phase == AtLoop && t.client.next == Response && t.calls == 1
    ensures t.client.original == [0] && t.client.cfg == c.cfg
  {
    hide EncodeTx;
    RunThree(Observed(c), ONE_BYTE, TICK, TICK);
    t := TraceStep(TraceStep(TraceStep(Observed(c), ONE_BYTE), TICK), TICK);
  }

  lemma Opening(t: Trace, r: Message) returns (u: Trace)
    requires t.client.Valid() && t.client.phase == AtLoop && t.client.next == Response
    requires Opens(r, t.client.cfg.maxLen)
    ensures u == TraceRun(t, [TICK, Move([r], [], false), TICK] + [TICK])
    ensures AtBlock(u, |t.client.original|, t.calls + 2) && u.client.cfg == t.client.cfg
  {
    hide EncodeTx, PollTx;
    RunThree(t, TICK, Move([r], [], false), TICK);
    var a := TraceStep(TraceStep(TraceStep(t, TICK), Move([r], [], false)), TICK);
    RunAppend(t, [TICK, Move([r], [], false), TICK], [TICK]);
    RunCons(a, TICK, []);
    assert [TICK] + [] == [TICK];
    u := TraceStep(a, TICK);
  }

  /** With all three kinds, a transfer of one byte can be made to take any number of calls. */
  lemma NoBound(c: Client, carried: iset<Message>, k: nat) returns (inputs: seq<Input>, t: Trace)
    requires Initial(c) && CanStall(carried, c.cfg.maxLen) && k > 0
    ensures Reached(c, inputs, t) && Over(inputs, carried)
    ensures t.client.current == Block && |t.client.original| == 1 && t.calls == 3 + k
  {
    hide TraceStep, TraceRun, TraceInv, Corrupt, EmptyMore, Opens;
    var r :| r in carried && Opens(r, c.cfg.maxLen);
    var corrupt :| corrupt in carried && Corrupt(corrupt, c.cfg.maxLen);
    var empty :| empty in carried && EmptyMore(empty, c.cfg.maxLen);
    var s1, s2 := [ONE_BYTE, TICK, TICK], [TICK, Move([r], [], false), TICK] + [TICK];
    var a := Asks(c);
    var b := Opening(a, r);
    RunAppend(Observed(c), s1, s2);
    ReachedInv(c, s1 + s2, b);
    var s3 := ManyStalls(b, corrupt, empty, k);
    RunAppend(Observed(c), s1 + s2, s3);
    inputs, t := s1 + s2 + s3, TraceRun(b, s3);
  }

  // ---------- exactly when the bound is n + 5 ----------

  lemma NoStallInitially(c: Client, carried: iset<Message>)
    requires Initial(c)
    ensures NoStall(Observed(c), carried, c.cfg.maxLen)
  {
    ClientInitial(c);
  }

  /** For every client and every set of messages its channel may carry: every transfer of n bytes
      is over within n + 5 calls if and only if one of three kinds of message is missing: a
      response that opens a session, a payload with a bad CRC, and an empty frame that says
      "continue". */
  lemma TransferTerminatesInTime(c: Client, carried: iset<Message>)
    requires Initial(c)
    ensures AlwaysInTime(c, carried) <==> !CanStall(carried, c.cfg.maxLen)
  {
    hide TraceRun, CanStall, TraceInv, InTransfer;
    if CanStall(carried, c.cfg.maxLen) {
      var inputs, t := NoBound(c, carried, 4);
      BlockIsInTransfer(t.client);
    } else {
      forall inputs: seq<Input>, t: Trace
        | Reached(c, inputs, t) && Over(inputs, carried)
          && (InTransfer(t.client) || t.client.current == Terminate)
        ensures t.calls <= |t.client.original| + 5
      {
        TransferTerminates(c, inputs, t);
        NoStallInitially(c, carried);
        NoStallRun(Observed(c), inputs, carried, c.cfg.maxLen);
      }
    }
  }

  lemma BlockIsInTransfer(c: Client)
    ensures c.current == Block ==> InTransfer(c)
  {}

  /** There are such messages: a response with identifier 1, a one-byte payload with CRC 1, and a
      header with nothing but the continue bit. */
  lemma StallingMessagesExist(maxLen: nat)
    requires maxLen >= TX_HEADER_SIZE
    ensures var opening := EncodeTx(HeaderFor(ResponseMsg, Config(1, 0, 0, 0)));
      var corrupt: Message := [TypeCode(BlockMsg), 0, 1, 0, 1, 0];
      var empty: Message := [TypeCode(BlockMsg), CONTINUE_MASK, 0, 0, 0];
      CanStall(iset{opening, corrupt, empty}, maxLen)
  {
    hide EncodeTx;
    var h := HeaderFor(ResponseMsg, Config(1, 0, 0, 0));
    DeliveredTx(h, [EncodeTx(h)], ResponseMsg, maxLen);
    assert Opens(EncodeTx(h), maxLen);
    BadFrames(maxLen);
  }

  lemma BadFrames(maxLen: nat)
    requires maxLen >= TX_HEADER_SIZE
    ensures Corrupt([TypeCode(BlockMsg), 0, 1, 0, 1, 0], maxLen)
    ensures EmptyMore([TypeCode(BlockMsg), CONTINUE_MASK, 0, 0, 0], maxLen)
  {
    GatherTwo([TypeCode(BlockMsg), 0, 1, 0, 1, 0], 2);
    GatherTwo([TypeCode(BlockMsg), CONTINUE_MASK, 0, 0, 0], 2);
  }
}

/** What the server keeps in every run, whatever arrives on its channels, whatever the storage
    callback offers and whenever the timer fires. */
module ServerProofs {
  import opened Bytes
  import opened Packets
  import opened Transport
  import opened Fsm
  import opened Segmentation
  import opened ServerFsm

  /** With `built` frames cut off, the buffer window holds the rest of a snapshot that fits the
      negotiated number of frames. */
  ghost predicate Loaded(s: Server, built: nat)
    requires s.Valid()
  {
    var cut := Cut(built, s.Room(), |s.snapshot|);
    && s.snapshot != []
    && |s.snapshot| <= s.Room() * s.peer.blocks
    && s.peer.blocks <= s.cfg.blocks
    && cut + s.remaining == |s.snapshot|
    && s.mem[s.cursor..s.cursor + s.remaining] == s.snapshot[cut..]
  }

  ghost predicate PhaseInv(s: Server)
    requires s.Valid()
  {
    match s.phase
    case AtLoop =>
      && (s.next == Initiate ==> Loaded(s, 0) && s.sent == 0)
      && (s.next == Block ==>
            s.counter >= 1 && Loaded(s, s.counter - 1) && s.remaining > 0 && s.sent == s.counter - 1)
    case AwaitRequest => s.current == s.next == Request
    case SendingResponse(h) =>
      s.current == s.next == Response && Loaded(s, 0) && s.sent == 0
      && h == HeaderFor(ResponseMsg, s.peer)
    case AwaitInitiate => s.current == s.next == Initiate && Loaded(s, 0) && s.sent == 0
    case SendingFrame(f) =>
      && s.current == s.next == Block && s.counter >= 2 && s.sent == s.counter - 2
      && Loaded(s, s.counter - 1)
      && Cut(s.sent, s.Room(), |s.snapshot|) < |s.snapshot|
      && f == Frame(s.snapshot, s.Room(), s.sent)
    case AwaitAck =>
      && s.current == s.next == Block && s.counter >= 2 && s.sent == s.counter - 1
      && Loaded(s, s.sent) && s.remaining == 0
    case Overflowed => s.current == s.next == Response
  }

  ghost predicate Inv(s: Server) {
    && s.Valid()
    && |s.mem| == s.Room() * s.cfg.blocks
    && s.busy == (s.current != Idle)
    && (s.current == Idle ==> s.phase == AtLoop && s.next in {Idle, Request})
    && (s.success ==> s.phase == AtLoop && s.next == Terminate)
    && (s.next == Idle ==> s.current == Idle)
    && (s.sent > 0 ==> Cut(s.sent - 1, s.Room(), |s.snapshot|) < |s.snapshot|)
    && PhaseInv(s)
  }

  lemma InitialInv(s: Server)
    requires Initial(s)
    ensures Inv(s)
  {}

  /** The frame limit never truncates: before the negotiated number of frames is used up,
      there is data left, and the number fits a byte. */
  lemma FramesLeft(s: Server, built: nat)
    requires s.Valid() && Loaded(s, built) && s.remaining > 0
    ensures built < s.peer.blocks
    ensures built + 1 == s.peer.blocks ==> s.remaining <= s.Room()
  {
    var p, total := s.Room(), |s.snapshot|;
    CutIsProduct(built, p, total);
    if built >= s.peer.blocks {
      MulMonotone(s.peer.blocks, built, p);
    } else {
      assert p * (built + 1) == built * p + p;
    }
  }

  /** A window onto the rest of the data, split behind `n` bytes. */
  lemma SplitWindow(mem: seq<byte>, at: nat, len: nat, data: seq<byte>, cut: nat, n: nat)
    requires at + len <= |mem| && cut + len == |data| && mem[at..at + len] == data[cut..] && n <= len
    ensures mem[at..at + n] == data[cut..cut + n]
    ensures mem[at + n..at + len] == data[cut + n..]
  {
    var window := mem[at..at + len];
    assert mem[at..at + n] == window[..n] && data[cut..cut + n] == data[cut..][..n];
    assert mem[at + n..at + len] == window[n..] && data[cut + n..] == data[cut..][n..];
  }

  /** The next bytes of the buffer window are the next chunk of the snapshot. */
  lemma WindowIsChunk(s: Server)
    requires s.Valid() && s.counter >= 1 && Loaded(s, s.counter - 1)
    ensures var n := Min(s.Room(), s.remaining);
      && Cut(s.counter, s.Room(), |s.snapshot|) == Cut(s.counter - 1, s.Room(), |s.snapshot|) + n
      && s.mem[s.cursor..s.cursor + n] == Chunk(s.snapshot, s.Room(), s.counter - 1)
      && s.mem[s.cursor + n..s.cursor + s.remaining]
           == s.snapshot[Cut(s.counter, s.Room(), |s.snapshot|)..]
  {
    var n, cut := Min(s.Room(), s.remaining), Cut(s.counter - 1, s.Room(), |s.snapshot|);
    SplitWindow(s.mem, s.cursor, s.remaining, s.snapshot, cut, n);
  }

  lemma FrameIsChunk(s: Server)
    requires s.Valid() && s.counter >= 1
    requires Loaded(s, s.counter - 1) && s.remaining > 0
    ensures var n := Min(s.Room(), s.remaining);
      && s.counter <= 255 && s.counter <= s.peer.blocks
      && Cut(s.counter, s.Room(), |s.snapshot|) == Cut(s.counter - 1, s.Room(), |s.snapshot|) + n
      && s.mem[s.cursor..s.cursor + n] == Chunk(s.snapshot, s.Room(), s.counter - 1)
      && s.mem[s.cursor + n..s.cursor + s.remaining]
           == s.snapshot[Cut(s.counter, s.Room(), |s.snapshot|)..]
      && ((s.counter >= s.peer.blocks || s.remaining == n) <==> s.remaining == n)
  {
    hide Loaded, Cut, Chunk;
    FramesLeft(s, s.counter - 1);
    WindowIsChunk(s);
  }

  lemma BuildFrameInv(s: Server)
    requires s.Valid() && s.current == s.next == Block && s.counter >= 1
    requires Loaded(s, s.counter - 1) && s.remaining > 0 && s.sent == s.counter - 1
    ensures var r := BuildFrame(s); r.counter == s.counter + 1 && PhaseInv(r)
  {
    hide SetContinue, SetFrameNumber, Cut, Chunk;
    FrameIsChunk(s);
  }

  lemma RespondInv(s: Server, store: seq<byte>)
    requires s.Valid() && s.current == s.next == Response && |s.mem| == s.Room() * s.cfg.blocks
    ensures PhaseInv(Respond(s, store)) && |Respond(s, store).mem| == |s.mem|
  {
    var r := Respond(s, store);
    if r.phase.SendingResponse? {
      assert r.mem[r.cursor..r.cursor + r.remaining] == r.snapshot;
      assert r.snapshot[0..] == r.snapshot;
    }
  }

  lemma ActivateInv(s: Server, store: seq<byte>)
    requires Inv(s) && s.phase == AtLoop
    ensures Inv(Activate(s, store))
  {
    var t := s.(current := s.next, busy := s.busy || s.next != Idle);
    if s.next == Response {
      RespondInv(t, store);
    } else if s.next == Block {
      assert Loaded(t, t.counter - 1);
      BuildFrameInv(t);
    } else if s.next == Initiate {
      assert Loaded(s, 0);
    }
  }

  lemma TryFrameInv(s: Server, rx: Channel, tx: Channel, expired: bool)
    requires Inv(s) && s.phase.SendingFrame?
    ensures Inv(TryFrame(s, s.phase.frame, rx, tx, expired).server)
  {
    hide CanSendBlock, EncodeBlock, Push, GetContinue, Cut, Frame;
    FrameFacts(s.snapshot, s.Room(), s.sent);
    var done := s.(sent := s.sent + 1);
    assert Loaded(done, s.counter - 1);
  }

  lemma HearInv(s: Server, rx: Channel, e: Env)
    requires Inv(s)
    ensures s.phase == AwaitRequest ==> Inv(HearRequest(s, rx))
    ensures s.phase == AwaitInitiate ==> Inv(HearInitiate(s, rx, e.expired))
    ensures s.phase == AwaitAck ==> Inv(HearAck(s, rx, e))
  {
    hide PollTx;
    if s.phase == AwaitInitiate {
      assert Loaded(s.(counter := 1), 0);
    }
  }

  lemma TryResponseInv(s: Server, rx: Channel, tx: Channel, expired: bool)
    requires Inv(s) && s.phase.SendingResponse?
    ensures Inv(TryResponse(s, s.phase.response, rx, tx, expired).server)
  {
    hide CanSendTx, EncodeTx, Push;
    assert Loaded(s, 0);
  }

  /** Every step keeps the invariant, for any channel contents and any environment. */
  lemma StepInv(s: Server, rx: Channel, tx: Channel, e: Env)
    requires Inv(s)
    ensures Inv(Step(s, rx, tx, e).server)
  {
    hide Inv, Activate, HearRequest, HearInitiate, HearAck, TryResponse, TryFrame;
    match s.phase
    case AtLoop => ActivateInv(s, e.store);
    case SendingResponse(_) => TryResponseInv(s, rx, tx, e.expired);
    case SendingFrame(_) => TryFrameInv(s, rx, tx, e.expired);
    case Overflowed =>
    case _ => HearInv(s, rx, e);
  }

  lemma StartInv(s: Server)
    requires Inv(s)
    ensures Inv(Start(s))
  {}
}

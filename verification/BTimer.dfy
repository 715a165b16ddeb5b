/** The one-shot timer. Every successful `start` leaves one handler behind that runs exactly
    once, at a moment of the event loop's choosing and also if the timer was cancelled; each
    operation may fail to get the lock, and then does nothing. */
module BTimer {
  import opened Options

  datatype Timer = Timer(
    handle: Option<nat>,    // deadline of the asio timer, if there is one
    expiry: bool,           // `timerExpiry`
    pending: nat,           // handlers that have not run
    deadline: Option<nat>,  // history: of the latest successful start
    starts: nat,            // history: successful starts
    reports: nat            // history: calls of `isExpired` that returned true
  )

  const FRESH := Timer(None, false, 0, None, 0, 0)

  /** A call, the time at which it is made, and whether it gets the lock. `start` begins with a
      call of `stop`, which takes the lock on its own. */
  datatype Event =
    | Start(now: nat, interval: nat, stopLocked: bool, locked: bool)
    | Stop(now: nat, locked: bool)
    | IsExpired(now: nat, locked: bool)
    | Handler(now: nat, locked: bool)

  function Stopped(t: Timer, locked: bool): Timer {
    if locked then t.(handle := None) else t
  }

  function Started(t: Timer, e: Event): Timer
    requires e.Start?
  {
    var s := Stopped(t, e.stopLocked);
    if !e.locked then s
    else Timer(Some(e.now + e.interval), false, s.pending + 1, Some(e.now + e.interval),
               s.starts + 1, s.reports)
  }

  function Read(t: Timer, locked: bool): Timer {
    if !locked then t
    else t.(expiry := false, reports := t.reports + if t.expiry then 1 else 0)
  }

  /** A handler compares the clock with the deadline of the current handle, whichever start it
      was left behind by. */
  function Handled(t: Timer, now: nat, locked: bool): Timer
    requires t.pending > 0
  {
    var ran := t.(pending := t.pending - 1);
    if locked && t.handle.Some? then ran.(expiry := t.handle.value <= now) else ran
  }

  /** Handlers only run while there are some. */
  predicate Enabled(t: Timer, e: Event) {
    e.Handler? ==> t.pending > 0
  }

  function Step(t: Timer, e: Event): Timer
    requires Enabled(t, e)
  {
    match e
    case Start(_, _, _, _) => Started(t, e)
    case Stop(_, locked) => Stopped(t, locked)
    case IsExpired(_, locked) => Read(t, locked)
    case Handler(now, locked) => Handled(t, now, locked)
  }

  /** A run on a clock that does not go back. */
  predicate Possible(t: Timer, clock: nat, events: seq<Event>)
    decreases |events|
  {
    events == []
    || (clock <= events[0].now && Enabled(t, events[0])
        && Possible(Step(t, events[0]), events[0].now, events[1..]))
  }

  function Run(t: Timer, clock: nat, events: seq<Event>): Timer
    requires Possible(t, clock, events)
    decreases |events|
  {
    if events == [] then t else Run(Step(t, events[0]), events[0].now, events[1..])
  }

  function Clock(clock: nat, events: seq<Event>): nat {
    if events == [] then clock else events[|events| - 1].now
  }

  // ---------- no false expiry ----------

  predicate Inv(t: Timer, clock: nat) {
    && (t.handle.Some? ==> t.handle == t.deadline)
    && (t.expiry ==> t.deadline.Some? && t.deadline.value <= clock)
    && t.reports + (if t.expiry then 1 else 0) + t.pending <= t.starts
  }

  lemma StepInv(t: Timer, clock: nat, e: Event)
    requires Inv(t, clock) && clock <= e.now && Enabled(t, e)
    ensures Inv(Step(t, e), e.now)
  {}

  lemma {:induction false} RunInv(t: Timer, clock: nat, events: seq<Event>)
    requires Inv(t, clock) && Possible(t, clock, events)
    ensures Inv(Run(t, clock, events), Clock(clock, events))
    decreases |events|
  {
    hide Inv, Step;
    if events != [] {
      StepInv(t, clock, events[0]);
      RunInv(Step(t, events[0]), events[0].now, events[1..]);
      if |events| > 1 {
        assert events[1..][|events| - 2] == events[|events| - 1];
      }
    }
  }

  // ---------- main results ----------

  predicate Successful(e: Event) {
    e.Start? && e.locked
  }

  /** The deadline the latest successful start of a run asked for. */
  function LatestDeadline(events: seq<Event>): Option<nat> {
    if events == [] then None
    else
      var e := events[|events| - 1];
      if Successful(e) then Some(e.now + e.interval) else LatestDeadline(events[..|events| - 1])
  }

  lemma {:induction false} DeadlineOfRun(t: Timer, clock: nat, events: seq<Event>)
    requires Possible(t, clock, events)
    ensures Run(t, clock, events).deadline
         == if LatestDeadline(events).Some? then LatestDeadline(events) else t.deadline
    decreases |events|
  {
    if events != [] {
      var next, rest := Step(t, events[0]), events[1..];
      DeadlineOfRun(next, events[0].now, rest);
      LatestFromFront(events);
    }
  }

  lemma {:induction false} LatestFromFront(events: seq<Event>)
    requires events != []
    ensures var e, rest := events[0], LatestDeadline(events[1..]);
      LatestDeadline(events) == if rest.Some? then rest
                                else if Successful(e) then Some(e.now + e.interval) else None
  {
    var init := events[..|events| - 1];
    if init != [] {
      LatestFromFront(init);
      assert events[1..][..|events| - 2] == init[1..];
      assert events[1..][|events| - 2] == events[|events| - 1];
    }
  }

  /** No false expiry. Whatever happened before, with late handlers of cancelled timers running
      at any moment and locks failing at any moment: when `isExpired` returns true, the deadline
      of the latest successful start has passed. */
  lemma NoFalseExpiry(events: seq<Event>, now: nat)
    requires Possible(FRESH, 0, events) && Clock(0, events) <= now
    requires Run(FRESH, 0, events).expiry
    ensures LatestDeadline(events).Some? && LatestDeadline(events).value <= now
  {
    RunInv(FRESH, 0, events);
    DeadlineOfRun(FRESH, 0, events);
  }

  /** Nothing that takes the expiry away: no successful read, no successful start. */
  predicate Leaves(e: Event) {
    !Successful(e) && !(e.IsExpired? && e.locked)
  }

  /** No lost expiry. Once set, the flag outlives every stop, every failed call and every late
      handler. */
  lemma {:induction false} NoLostExpiry(t: Timer, clock: nat, events: seq<Event>)
    requires Inv(t, clock) && t.expiry && Possible(t, clock, events)
    requires forall i :: 0 <= i < |events| ==> Leaves(events[i])
    ensures Run(t, clock, events).expiry
    decreases |events|
  {
    if events != [] {
      StepInv(t, clock, events[0]);
      assert Leaves(events[0]);
      NoLostExpiry(Step(t, events[0]), events[0].now, events[1..]);
    }
  }

  /** ... and it is a handler that runs after the deadline that sets it. */
  lemma LateHandlerSets(t: Timer, clock: nat, now: nat)
    requires Inv(t, clock) && clock <= now && t.pending > 0 && t.handle.Some?
    ensures Handled(t, now, true).expiry <==> t.deadline.value <= now
  {}

  /** Over a whole run, expiries are reported at most once per successful start. */
  lemma ReportsAreBounded(events: seq<Event>)
    requires Possible(FRESH, 0, events)
    ensures var t := Run(FRESH, 0, events); t.reports + t.pending <= t.starts
  {
    RunInv(FRESH, 0, events);
  }

  /** After one start, without another: no more reports than handlers that have yet to run. */
  lemma {:induction false} ReportsPerStart(t: Timer, clock: nat, events: seq<Event>)
    requires Possible(t, clock, events) && !t.expiry
    requires forall i :: 0 <= i < |events| ==> !Successful(events[i])
    ensures Run(t, clock, events).reports <= t.reports + t.pending
  {
    ReportsAndHandlers(t, clock, events);
  }

  lemma {:induction false} ReportsAndHandlers(t: Timer, clock: nat, events: seq<Event>)
    requires Possible(t, clock, events)
    requires forall i :: 0 <= i < |events| ==> !Successful(events[i])
    ensures var r := Run(t, clock, events);
      r.reports + (if r.expiry then 1 else 0) + r.pending
        <= t.reports + (if t.expiry then 1 else 0) + t.pending
    decreases |events|
  {
    if events != [] {
      assert !Successful(events[0]);
      ReportsAndHandlers(Step(t, events[0]), events[0].now, events[1..]);
    }
  }

  /** One deadline can be reported as often as that: every handler left behind by an earlier,
      cancelled start sets the flag again. */
  lemma {:induction false} OneDeadlineManyReports(t: Timer, clock: nat) returns (events: seq<Event>)
    requires t.handle.Some? && t.handle.value <= clock && !t.expiry
    ensures Possible(t, clock, events) && forall i :: 0 <= i < |events| ==> !Successful(events[i])
    ensures Run(t, clock, events).reports == t.reports + t.pending
    decreases t.pending
  {
    if t.pending == 0 {
      events := [];
    } else {
      var handler, query := Handler(clock, true), IsExpired(clock, true);
      var raised := Step(t, handler);
      var rest := OneDeadlineManyReports(Step(raised, query), clock);
      events := [handler, query] + rest;
      assert events[1..] == [query] + rest && ([query] + rest)[1..] == rest;
      assert Possible(raised, clock, [query] + rest);
    }
  }

  /** A stop that gets the lock; or a start that fails after its own stop got it. */
  predicate Stops(e: Event) {
    (e.Stop? && e.locked) || (e.Start? && e.stopLocked && !e.locked)
  }

  /** Expiries reported so far, with the one that is waiting to be read. */
  function Expiries(t: Timer): nat {
    t.reports + if t.expiry then 1 else 0
  }

  /** A stopped timer does not expire. After a stop, and as long as no start succeeds, whatever
      handlers run and whenever: nothing is reported but an expiry that was already waiting. */
  lemma StoppedIsSilent(t: Timer, clock: nat, stop: Event, events: seq<Event>)
    requires Stops(stop) && Possible(t, clock, [stop] + events)
    requires forall i :: 0 <= i < |events| ==> !Successful(events[i])
    ensures var r := Run(t, clock, [stop] + events);
      && Expiries(r) == Expiries(t)
      && (!t.expiry ==> !r.expiry && r.reports == t.reports)
  {
    assert ([stop] + events)[1..] == events;
    NothingArmed(Step(t, stop), stop.now, events);
  }

  lemma {:induction false} NothingArmed(t: Timer, clock: nat, events: seq<Event>)
    requires t.handle == None && Possible(t, clock, events)
    requires forall i :: 0 <= i < |events| ==> !Successful(events[i])
    ensures var r := Run(t, clock, events);
      && Expiries(r) == Expiries(t) && t.reports <= r.reports && (!t.expiry ==> !r.expiry)
    decreases |events|
  {
    if events != [] {
      assert !Successful(events[0]);
      NothingArmed(Step(t, events[0]), events[0].now, events[1..]);
    }
  }

  /** Neither stops the timer nor starts it. */
  predicate Undisturbed(e: Event) {
    !(e.Stop? && e.locked) && !(e.Start? && (e.stopLocked || e.locked))
  }

  lemma {:induction false} Armed(t: Timer, clock: nat, events: seq<Event>, last: Event)
    requires Possible(t, clock, events + [last])
    requires forall i :: 0 <= i < |events| ==> Undisturbed(events[i])
    requires last.Handler? && last.locked && t.handle.Some?
    ensures Run(t, clock, events + [last]).expiry <==> t.handle.value <= last.now
    decreases |events|
  {
    var all := events + [last];
    if events == [] {
      assert all == [last];
    } else {
      assert all[1..] == events[1..] + [last] && Undisturbed(events[0]);
      Armed(Step(t, events[0]), events[0].now, events[1..], last);
    }
  }

  /** A started timer expires on time. After a successful start, and as long as the timer is
      neither stopped nor started again: a handler that gets the lock leaves the flag set if and
      only if the time asked for is over. */
  lemma StartedExpires(t: Timer, clock: nat, start: Event, events: seq<Event>, last: Event)
    requires Successful(start) && last.Handler? && last.locked
    requires Possible(t, clock, [start] + (events + [last]))
    requires forall i :: 0 <= i < |events| ==> Undisturbed(events[i])
    ensures Run(t, clock, [start] + (events + [last])).expiry <==> start.now + start.interval <= last.now
  {
    assert ([start] + (events + [last]))[1..] == events + [last];
    Armed(Step(t, start), start.now, events, last);
  }

  /** There is such a handler. */
  lemma StartLeavesHandler(t: Timer, start: Event, last: Event)
    requires Successful(start) && last.Handler? && start.now <= last.now
    ensures Possible(t, start.now, [start, last])
  {
    assert [start, last][1..] == [last] && [last][1..] == [];
    assert Possible(Step(t, start), start.now, [last]);
  }

  // ---------- the timer ----------

  class BTimer {
    var handle: Option<nat>
    var duration: nat
    var timerExpiry: bool
    ghost var pending: nat
    ghost var deadline: Option<nat>
    ghost var starts: nat
    ghost var reports: nat

    ghost function View(): Timer
      reads this
    {
      Timer(handle, timerExpiry, pending, deadline, starts, reports)
    }

    constructor ()
      ensures View() == FRESH && duration == 1
    {
      handle, duration, timerExpiry := None, 1, false;
      pending, deadline, starts, reports := 0, None, 0, 0;
    }

    method Start(now: nat, interval: nat, stopLocked: bool, locked: bool) returns (ok: bool)
      modifies this
      ensures View() == Started(old(View()), Event.Start(now, interval, stopLocked, locked))
      ensures ok == locked
    {
      var stopped := Stop(now, stopLocked);
      ok := false;
      if locked {
        duration, timerExpiry := interval, false;
        handle := Some(now + duration);
        pending, deadline, starts := pending + 1, handle, starts + 1;
        ok := true;
      }
    }

    /** Cancelling, or deleting the asio timer, lets its handler run; it does not take it back. */
    method Stop(now: nat, locked: bool) returns (ok: bool)
      modifies this`handle
      ensures View() == Stopped(old(View()), locked) && ok == (locked && old(handle).Some?)
      ensures locked ==> handle == None
    {
      ok := false;
      if locked {
        if handle != None {
          handle := None;
          ok := true;
        }
      }
    }

    /** Reads and clears the flag. */
    method IsExpired(locked: bool) returns (temp: bool)
      modifies this`timerExpiry, this`reports
      ensures View() == Read(old(View()), locked) && temp == (locked && old(timerExpiry))
      ensures reports == old(reports) + if temp then 1 else 0
    {
      temp := false;
      if locked {
        temp := timerExpiry;
        timerExpiry := false;
        reports := reports + if temp then 1 else 0;
      }
    }

    /** `timeoutCB`; in one-shot mode the restart that follows changes nothing. */
    method TimeoutCB(now: nat, locked: bool)
      requires pending > 0
      modifies this`timerExpiry, this`pending
      ensures View() == Handled(old(View()), now, locked)
    {
      pending := pending - 1;
      if locked {
        if handle != None {
          timerExpiry := handle.value <= now;
        }
      }
    }
  }
}

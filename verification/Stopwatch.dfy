/** The lap stopwatch: time points in nanoseconds of a clock that does not go back, results in
    rounded units. */
module Stopwatch {
  datatype TimeFormat = Nanoseconds | Microseconds | Milliseconds | Seconds

  function Unit(fmt: TimeFormat): nat {
    match fmt
    case Nanoseconds => 1
    case Microseconds => 1000
    case Milliseconds => 1000000
    case Seconds => 1000000000
  }

  /** Whole units, and one more if the digit behind the point is at least 5. */
  function Ticks(start: nat, end: nat, fmt: TimeFormat): nat
    requires start <= end
  {
    var ns := end - start;
    match fmt
    case Nanoseconds => ns
    case Microseconds => ns / 1000 + if ns / 100 % 10 >= 5 then 1 else 0
    case Milliseconds => ns / 1000000 + if ns / 100000 % 10 >= 5 then 1 else 0
    case Seconds => ns / 1000000000 + if ns / 100000000 % 10 >= 5 then 1 else 0
  }

  lemma MicrosecondsRound(ns: nat)
    ensures var t := Ticks(0, ns, Microseconds); 1000 * (2 * t - 1) <= 2 * ns < 1000 * (2 * t + 1)
  {
    var q := ns / 100;
    assert ns / 1000 == q / 10;
    assert ns == 1000 * (q / 10) + 100 * (q % 10) + ns % 100;
  }

  lemma MillisecondsRound(ns: nat)
    ensures var t := Ticks(0, ns, Milliseconds); 1000000 * (2 * t - 1) <= 2 * ns < 1000000 * (2 * t + 1)
  {
    var q := ns / 100000;
    assert ns / 1000000 == q / 10;
    assert ns == 1000000 * (q / 10) + 100000 * (q % 10) + ns % 100000;
  }

  lemma SecondsRound(ns: nat)
    ensures var t := Ticks(0, ns, Seconds); 1000000000 * (2 * t - 1) <= 2 * ns < 1000000000 * (2 * t + 1)
  {
    var q := ns / 100000000;
    assert ns / 1000000000 == q / 10;
    assert ns == 1000000000 * (q / 10) + 100000000 * (q % 10) + ns % 100000000;
  }

  /** Every result is the nearest number of units, and the upper one of two. */
  lemma TicksRoundsHalfUp(start: nat, end: nat, fmt: TimeFormat)
    requires start <= end
    ensures Unit(fmt) * (2 * Ticks(start, end, fmt) - 1) <= 2 * (end - start)
    ensures 2 * (end - start) < Unit(fmt) * (2 * Ticks(start, end, fmt) + 1)
  {
    hide Ticks;
    OnlyTheDifference(start, end, fmt);
    match fmt
    case Nanoseconds =>
    case Microseconds => MicrosecondsRound(end - start);
    case Milliseconds => MillisecondsRound(end - start);
    case Seconds => SecondsRound(end - start);
  }

  lemma OnlyTheDifference(start: nat, end: nat, fmt: TimeFormat)
    requires start <= end
    ensures Ticks(start, end, fmt) == Ticks(0, end - start, fmt)
    ensures Ticks(start, end, Nanoseconds) == end - start
  {}

  // ---------- laps ----------

  /** Time points that do not go back. */
  predicate Ordered(laps: seq<nat>) {
    forall i :: 0 < i < |laps| ==> laps[i - 1] <= laps[i]
  }

  lemma {:induction false} OrderedEnds(laps: seq<nat>)
    requires Ordered(laps) && laps != []
    ensures laps[0] <= laps[|laps| - 1]
  {
    if |laps| > 1 {
      OrderedEnds(laps[..|laps| - 1]);
    }
  }

  lemma Neighbours(laps: seq<nat>, idx: nat)
    requires Ordered(laps) && idx + 1 < |laps|
    ensures laps[idx] <= laps[idx + 1] && Ordered(laps[..idx + 1]) && Ordered(laps[..idx + 2])
  {
    assert laps[idx] == laps[idx + 1 - 1];
  }

  function LapTimes(laps: seq<nat>, fmt: TimeFormat): (times: seq<nat>)
    requires Ordered(laps)
    ensures |times| == if laps == [] then 0 else |laps| - 1
  {
    if |laps| <= 1 then []
    else
      LapTimes(laps[..|laps| - 1], fmt) + [Ticks(laps[|laps| - 2], laps[|laps| - 1], fmt)]
  }

  function Sum(s: seq<nat>): nat {
    if s == [] then 0 else Sum(s[..|s| - 1]) + s[|s| - 1]
  }

  lemma SumAppend(s: seq<nat>, x: nat)
    ensures Sum(s + [x]) == Sum(s) + x
  {
    assert (s + [x])[..|s|] == s;
  }

  lemma Distribute(u: int, a: int, b: int)
    ensures u * (a + b) == u * a + u * b
  {}

  /** A sum of k roundings of pieces of a time is off by at most k half units. */
  predicate Within(u: nat, sum: int, k: nat, time: int) {
    && u * (2 * sum - k) <= 2 * time <= u * (2 * sum + k)
    && (k > 0 ==> 2 * time < u * (2 * sum + k))
  }

  lemma NothingIsWithin(u: nat)
    ensures Within(u, 0, 0, 0)
  {}

  /** One more rounding adds at most half a unit. */
  lemma Accumulate(u: nat, s: int, k: nat, ns: int, t: int, lap: int)
    requires Within(u, s, k, ns) && u * (2 * t - 1) <= 2 * lap < u * (2 * t + 1)
    ensures Within(u, s + t, k + 1, ns + lap)
  {
    Distribute(u, 2 * s - k, 2 * t - 1);
    Distribute(u, 2 * s + k, 2 * t + 1);
    assert (2 * s - k) + (2 * t - 1) == 2 * (s + t) - (k + 1);
    assert (2 * s + k) + (2 * t + 1) == 2 * (s + t) + (k + 1);
  }

  /** k laps are off by at most k half units. */
  lemma {:induction false} SumError(laps: seq<nat>, fmt: TimeFormat)
    requires Ordered(laps) && |laps| >= 1
    ensures Within(Unit(fmt), Sum(LapTimes(laps, fmt)), |laps| - 1, laps[|laps| - 1] as int - laps[0])
  {
    hide Ticks, Unit, Within;
    if |laps| == 1 {
      NothingIsWithin(Unit(fmt));
    } else {
      var init, from, to := laps[..|laps| - 1], laps[|laps| - 2], laps[|laps| - 1];
      var s, t := Sum(LapTimes(init, fmt)), Ticks(from, to, fmt);
      SumError(init, fmt);
      SumAppend(LapTimes(init, fmt), t);
      TicksRoundsHalfUp(from, to, fmt);
      Accumulate(Unit(fmt), s, |laps| - 2, from as int - laps[0], t, to as int - from);
    }
  }

  /** In nanoseconds the laps add up to the total exactly. */
  lemma NanosecondsAddUp(laps: seq<nat>)
    requires Ordered(laps) && |laps| >= 2
    ensures laps[0] <= laps[|laps| - 1]
    ensures Sum(LapTimes(laps, Nanoseconds)) == Ticks(laps[0], laps[|laps| - 1], Nanoseconds)
  {
    OrderedEnds(laps);
    ExactSum(laps);
  }

  lemma {:induction false} ExactSum(laps: seq<nat>)
    requires Ordered(laps) && |laps| >= 1
    ensures laps[0] + Sum(LapTimes(laps, Nanoseconds)) == laps[|laps| - 1]
  {
    if |laps| > 1 {
      ExactSum(laps[..|laps| - 1]);
      SumAppend(LapTimes(laps[..|laps| - 1], Nanoseconds), laps[|laps| - 1] - laps[|laps| - 2]);
    }
  }

  /** In any unit, the sum of k reported laps is off the reported total by at most k / 2. */
  lemma LapRoundingBound(laps: seq<nat>, fmt: TimeFormat)
    requires Ordered(laps) && |laps| >= 2
    ensures laps[0] <= laps[|laps| - 1]
    ensures var error := Sum(LapTimes(laps, fmt)) as int - Ticks(laps[0], laps[|laps| - 1], fmt);
      -(|laps| - 1) <= 2 * error <= |laps| - 1
  {
    hide Ticks, Unit, LapTimes, Sum;
    OrderedEnds(laps);
    SumError(laps, fmt);
    TicksRoundsHalfUp(laps[0], laps[|laps| - 1], fmt);
    var sum: int, total: int := Sum(LapTimes(laps, fmt)), Ticks(laps[0], laps[|laps| - 1], fmt);
    var k := |laps| - 1;
    SmallerFactor(Unit(fmt), 2 * sum - k, 2 * total + 1);
    SmallerFactor(Unit(fmt), 2 * total - 1, 2 * sum + k);
  }

  lemma NonNegative(u: nat, a: nat)
    ensures u * a >= 0
  {}

  lemma SmallerFactor(u: nat, a: int, b: int)
    requires u * a < u * b
    ensures a < b
  {
    if a >= b {
      NonNegative(u, a - b);
      Distribute(u, b, a - b);
    }
  }

  /** Time points half a microsecond apart. */
  function HalfUnits(k: nat): (laps: seq<nat>)
    ensures |laps| == k + 1 && Ordered(laps) && laps[0] == 0 && laps[k] == 500 * k
  {
    if k == 0 then [0] else HalfUnits(k - 1) + [500 * k]
  }

  lemma HalfUnitTicks(k: nat)
    ensures Ticks(500 * k, 500 * (k + 1), Microseconds) == 1
  {
    OnlyTheDifference(500 * k, 500 * (k + 1), Microseconds);
  }

  lemma {:induction false} HalfUnitLaps(k: nat)
    ensures Sum(LapTimes(HalfUnits(k), Microseconds)) == k
  {
    hide Sum, Ticks;
    if k > 0 {
      var laps := HalfUnits(k);
      HalfUnitLaps(k - 1);
      assert laps[..k] == HalfUnits(k - 1) && laps[k - 1] == HalfUnits(k - 1)[k - 1];
      HalfUnitTicks(k - 1);
      SumAppend(LapTimes(laps[..k], Microseconds), 1);
    } else {
      NoLaps();
    }
  }

  lemma NoLaps()
    ensures Sum([]) == 0
  {}

  lemma WholeUnits(n: nat)
    ensures Ticks(0, 1000 * n, Microseconds) == n
  {
    assert 1000 * n / 100 == 10 * n && 10 * n % 10 == 0;
  }

  /** The bound is reached for every even number of laps. */
  lemma BoundIsReached(n: nat)
    ensures var laps := HalfUnits(2 * n);
      var error := Sum(LapTimes(laps, Microseconds)) as int - Ticks(laps[0], laps[2 * n], Microseconds);
      2 * error == 2 * n
  {
    hide Sum, LapTimes, Ticks;
    HalfUnitLaps(2 * n);
    WholeUnits(n);
  }

  // ---------- the stopwatch ----------

  class Stopwatch {
    var startTime: nat
    var laps: seq<nat>

    ghost predicate Valid(now: nat)
      reads this
    {
      && laps != [] && startTime == laps[0] && Ordered(laps) && laps[|laps| - 1] <= now
    }

    constructor (now: nat)
      ensures Valid(now) && laps == [now]
    {
      startTime, laps := now, [now];
    }

    method Start(now: nat)
      modifies this
      ensures Valid(now) && laps == [now]
    {
      startTime, laps := now, [now];
    }

    method Lap(now: nat, fmt: TimeFormat) returns (t: nat)
      requires Valid(now)
      modifies this`laps
      ensures Valid(now) && laps == old(laps) + [now]
      ensures t == Ticks(old(laps)[|old(laps)| - 1], now, fmt)
      ensures LapTimes(laps, fmt) == LapTimes(old(laps), fmt) + [t]
    {
      var last := laps[|laps| - 1];
      laps := laps + [now];
      t := Ticks(last, now, fmt);
      assert laps[..|laps| - 1] == old(laps);
    }

    method Elapsed(now: nat, fmt: TimeFormat) returns (t: nat)
      requires Valid(now)
      ensures startTime <= now && t == Ticks(startTime, now, fmt)
      ensures Unit(fmt) * (2 * t - 1) <= 2 * (now - startTime) < Unit(fmt) * (2 * t + 1)
    {
      OrderedEnds(laps);
      TicksRoundsHalfUp(startTime, now, fmt);
      t := Ticks(startTime, now, fmt);
    }

    /** Total and laps. The loop's bound is the number of laps less one on unsigned numbers, so
        there must be a lap. */
    method ElapsedLaps(fmtTotal: TimeFormat, fmtLap: TimeFormat, ghost now: nat)
      returns (total: nat, times: seq<nat>)
      requires Valid(now) && |laps| >= 2
      ensures startTime <= laps[|laps| - 1]
      ensures total == Ticks(startTime, laps[|laps| - 1], fmtTotal)
      ensures times == LapTimes(laps, fmtLap)
      ensures fmtTotal == fmtLap ==> |times| >= 2 * (Sum(times) as int - total) >= -|times|
      ensures fmtTotal == fmtLap == Nanoseconds ==> Sum(times) == total
    {
      hide Ticks, Sum, Unit, Ordered;
      Neighbours(laps, 0);
      times := [];
      var idx := 0;
      while idx <= |laps| - 2
        invariant 0 <= idx <= |laps| - 1
        invariant Ordered(laps[..idx + 1])
        invariant times == LapTimes(laps[..idx + 1], fmtLap)
      {
        Neighbours(laps, idx);
        times := times + [Ticks(laps[idx], laps[idx + 1], fmtLap)];
        assert laps[..idx + 2][..idx + 1] == laps[..idx + 1];
        idx := idx + 1;
      }
      assert laps[..|laps|] == laps;
      OrderedEnds(laps);
      total := Ticks(startTime, laps[|laps| - 1], fmtTotal);
      LapRoundingBound(laps, fmtLap);
      NanosecondsAddUp(laps);
    }
  }
}

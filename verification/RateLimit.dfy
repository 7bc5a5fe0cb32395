/** The fixed-window rate limiter of the risk engine, and the bound it gives on any sliding
    interval - which the code never states. */
module RateLimit {
  import opened Types

  /** `maxMsgsPerWindow` is 32 bits, `windowDurationNs` 64. */
  datatype Limits = Limits(maxMsgs: Quantity, windowNs: nat)

  /** `windowStartNs` and `windowMsgCount`. */
  datatype Window = Window(start: nat, count: Quantity)

  /** One counted message: a new window is opened when the old one is over, with the unsigned
      64-bit difference and the 32-bit count of the source. */
  function Count(l: Limits, w: Window, now: nat): Window {
    var w' := if (now - w.start) % TWO64 >= l.windowNs then Window(now, 0) else w;
    w'.(count := Wrap32(w'.count + 1))
  }

  predicate Passes(l: Limits, w: Window, now: nat) {
    Count(l, w, now).count <= l.maxMsgs
  }

  /** Messages passed in the half-open interval [from, to) of a run. */
  function PassedIn(l: Limits, w: Window, times: seq<nat>, from: nat, to: nat): nat
    decreases |times|
  {
    if times == [] then 0
    else (if from <= times[0] < to && Passes(l, w, times[0]) then 1 else 0)
         + PassedIn(l, Count(l, w, times[0]), times[1..], from, to)
  }

  /** A monotone 64-bit clock that has not been read before the window started. */
  predicate Clock(w: Window, times: seq<nat>) {
    && (forall i :: 0 <= i < |times| ==> w.start <= times[i] < TWO64)
    && (forall i, j :: 0 <= i < j < |times| ==> times[i] <= times[j])
  }

  /** The 32-bit count never wraps: fewer than 2^32 messages are counted in any one window. */
  predicate NoWrap(l: Limits, w: Window, times: seq<nat>)
    decreases |times|
  {
    times == [] || (0 < Count(l, w, times[0]).count && NoWrap(l, Count(l, w, times[0]), times[1..]))
  }

  lemma ClockStep(l: Limits, w: Window, times: seq<nat>)
    requires Clock(w, times) && times != []
    ensures Clock(Count(l, w, times[0]), times[1..])
    ensures Count(l, w, times[0]) ==
      if times[0] - w.start >= l.windowNs then Window(times[0], 1) else w.(count := Wrap32(w.count + 1))
  {}

  /** What a window still lets through. */
  function Room(l: Limits, w: Window): nat {
    if w.count < l.maxMsgs then l.maxMsgs - w.count else 0
  }

  /** Nothing is passed in an interval that is already over. */
  lemma {:induction false} PassedAfter(l: Limits, w: Window, times: seq<nat>, from: nat, to: nat)
    requires Clock(w, times) && (times != [] ==> to <= times[0])
    ensures PassedIn(l, w, times, from, to) == 0
    decreases |times|
  {
    if times != [] {
      ClockStep(l, w, times);
      PassedAfter(l, Count(l, w, times[0]), times[1..], from, to);
    }
  }

  /** A window that starts inside the interval is the last one in it. */
  lemma {:induction false} LastWindow(l: Limits, w: Window, times: seq<nat>, from: nat)
    requires Clock(w, times) && NoWrap(l, w, times) && from <= w.start
    ensures PassedIn(l, w, times, from, from + l.windowNs) <= Room(l, w)
    decreases |times|
  {
    if times != [] {
      var w' := Count(l, w, times[0]);
      ClockStep(l, w, times);
      if times[0] - w.start >= l.windowNs {
        PassedAfter(l, w', times[1..], from, from + l.windowNs);
      } else {
        LastWindow(l, w', times[1..], from);
      }
    }
  }

  /** A window open when the interval begins is followed by at most one more in it. */
  lemma {:induction false} TwoWindows(l: Limits, w: Window, times: seq<nat>, from: nat)
    requires Clock(w, times) && NoWrap(l, w, times) && (times != [] ==> from <= times[0])
    ensures PassedIn(l, w, times, from, from + l.windowNs) <= Room(l, w) + l.maxMsgs
    decreases |times|
  {
    if times != [] {
      var w' := Count(l, w, times[0]);
      ClockStep(l, w, times);
      if times[0] - w.start >= l.windowNs {
        LastWindow(l, w', times[1..], from);
      } else {
        TwoWindows(l, w', times[1..], from);
      }
    }
  }

  /** In any run with a monotone clock, any half-open interval as long as the window holds at most
      twice the configured number of passed messages. */
  lemma {:induction false} SlidingBound(l: Limits, w: Window, times: seq<nat>, from: nat)
    requires Clock(w, times) && NoWrap(l, w, times)
    ensures PassedIn(l, w, times, from, from + l.windowNs) <= 2 * l.maxMsgs
    decreases |times|
  {
    if times != [] {
      if times[0] < from {
        ClockStep(l, w, times);
        SlidingBound(l, Count(l, w, times[0]), times[1..], from);
      } else {
        TwoWindows(l, w, times, from);
      }
    }
  }

  /** Once every window is opened by a message - after the first message of a clock that has run
      for at least one window - the bound is one less. */
  lemma {:induction false} SlidingBoundOpened(l: Limits, w: Window, times: seq<nat>, from: nat)
    requires Clock(w, times) && NoWrap(l, w, times) && l.maxMsgs > 0
    requires w.count > 0 || (times != [] ==> times[0] - w.start >= l.windowNs)
    ensures PassedIn(l, w, times, from, from + l.windowNs) <= 2 * l.maxMsgs - 1
    decreases |times|
  {
    if times != [] {
      ClockStep(l, w, times);
      var w' := Count(l, w, times[0]);
      if times[0] < from {
        SlidingBoundOpened(l, w', times[1..], from);
      } else if times[0] - w.start >= l.windowNs {
        LastWindow(l, w', times[1..], from);
      } else {
        TwoWindows(l, w, times, from);
      }
    }
  }

  // ---------- both bounds are met ----------

  function Repeat(t: nat, n: nat): (times: seq<nat>)
    ensures |times| == n && forall i :: 0 <= i < n ==> times[i] == t
  {
    seq(n, _ => t)
  }

  /** `n` messages at one instant of a window with room for them all pass. */
  lemma {:induction false} Burst(l: Limits, w: Window, t: nat, n: nat, later: seq<nat>, from: nat, to: nat)
    requires w.start <= t < TWO64 && t - w.start < l.windowNs && w.count + n <= l.maxMsgs
    requires from <= t < to
    ensures PassedIn(l, w, Repeat(t, n) + later, from, to) == n + PassedIn(l, w.(count := w.count + n), later, from, to)
    ensures NoWrap(l, w.(count := w.count + n), later) ==> NoWrap(l, w, Repeat(t, n) + later)
    decreases n
  {
    var times := Repeat(t, n) + later;
    if n == 0 {
      assert times == later;
    } else {
      assert times[1..] == Repeat(t, n - 1) + later;
      assert Count(l, w, t) == w.(count := w.count + 1);
      Burst(l, w.(count := w.count + 1), t, n - 1, later, from, to);
    }
  }

  /** The first message of a burst opens a window, the others fill it. */
  lemma OpeningBurst(l: Limits, w: Window, t: nat, later: seq<nat>, from: nat, to: nat)
    requires w.start <= t < TWO64 && t - w.start >= l.windowNs > 0 && l.maxMsgs > 0
    requires from <= t < to
    ensures var w' := Window(t, l.maxMsgs); var times := Repeat(t, l.maxMsgs) + later;
      && PassedIn(l, w, times, from, to) == l.maxMsgs + PassedIn(l, w', later, from, to)
      && (NoWrap(l, w', later) ==> NoWrap(l, w, times))
  {
    var times := Repeat(t, l.maxMsgs) + later;
    assert times[1..] == Repeat(t, l.maxMsgs - 1) + later;
    assert Count(l, w, t) == Window(t, 1);
    Burst(l, Window(t, 1), t, l.maxMsgs - 1, later, from, to);
  }

  lemma NothingLeft(l: Limits, w: Window, from: nat, to: nat)
    ensures PassedIn(l, w, [], from, to) == 0 && NoWrap(l, w, [])
  {}

  /** For every limit there is a run that fills an interval with twice the limit: a full burst in
      the last nanosecond of the initial window and another in the first of the next. */
  lemma BoundIsTight(l: Limits) returns (times: seq<nat>)
    requires l.maxMsgs > 0 && 2 <= l.windowNs < TWO64
    ensures Clock(Window(0, 0), times) && NoWrap(l, Window(0, 0), times)
    ensures var from := l.windowNs - 1; PassedIn(l, Window(0, 0), times, from, from + l.windowNs) == 2 * l.maxMsgs
  {
    hide PassedIn, NoWrap, Count, Passes;
    var n, t := l.maxMsgs, l.windowNs;
    NothingLeft(l, Window(t, n), t - 1, t - 1 + t);
    var later := Repeat(t, n);
    times := Repeat(t - 1, n) + later;
    assert later + [] == later;
    OpeningBurst(l, Window(0, n), t, [], t - 1, t - 1 + t);
    Burst(l, Window(0, 0), t - 1, n, later, t - 1, t - 1 + t);
  }

  /** A message before the interval opens a window. */
  lemma OpenBefore(l: Limits, w: Window, t: nat, later: seq<nat>, from: nat, to: nat)
    requires w.start <= t < TWO64 && t - w.start >= l.windowNs && t < from
    ensures PassedIn(l, w, [t] + later, from, to) == PassedIn(l, Window(t, 1), later, from, to)
    ensures NoWrap(l, Window(t, 1), later) ==> NoWrap(l, w, [t] + later)
  {
    var times := [t] + later;
    assert times[1..] == later && Count(l, w, t) == Window(t, 1);
  }

  /** And one that fills it with one less after a message has opened the first window. */
  lemma OpenedBoundIsTight(l: Limits) returns (times: seq<nat>)
    requires l.maxMsgs > 0 && 2 <= l.windowNs && 2 * l.windowNs < TWO64
    ensures Clock(Window(0, 0), times) && NoWrap(l, Window(0, 0), times) && times != [] && times[0] == l.windowNs
    ensures var from := 2 * l.windowNs - 1;
      PassedIn(l, Window(0, 0), times, from, from + l.windowNs) == 2 * l.maxMsgs - 1
  {
    hide PassedIn, NoWrap, Count, Passes;
    var n, t := l.maxMsgs, l.windowNs;
    var from := 2 * t - 1;
    var last := Repeat(2 * t, n);
    var middle := Repeat(from, n - 1) + last;
    times := [t] + middle;
    assert last + [] == last;
    NothingLeft(l, Window(2 * t, n), from, from + t);
    OpeningBurst(l, Window(t, n), 2 * t, [], from, from + t);
    Burst(l, Window(t, 1), from, n - 1, last, from, from + t);
    OpenBefore(l, Window(0, 0), t, middle, from, from + t);
  }

  // ---------- which configurations keep the limit in every interval ----------

  /** The interval as long as the window that begins at `from` holds no more than the limit. */
  predicate KeptFrom(l: Limits, times: seq<nat>, from: nat) {
    PassedIn(l, Window(0, 0), times, from, from + l.windowNs) <= l.maxMsgs
  }

  /** In every run every interval does. */
  ghost predicate LimitHolds(l: Limits) {
    forall times: seq<nat>, from: nat ::
      Clock(Window(0, 0), times) && NoWrap(l, Window(0, 0), times) ==> KeptFrom(l, times, from)
  }

  /** With windows of one nanosecond all of an interval is in one window. */
  lemma {:induction false} OneInstant(l: Limits, w: Window, times: seq<nat>, from: nat)
    requires l.windowNs <= 1 && Clock(w, times) && NoWrap(l, w, times)
    ensures PassedIn(l, w, times, from, from + l.windowNs) <= l.maxMsgs
    decreases |times|
  {
    if from <= w.start {
      LastWindow(l, w, times, from);
    } else if times != [] {
      var w' := Count(l, w, times[0]);
      ClockStep(l, w, times);
      if times[0] < from {
        OneInstant(l, w', times[1..], from);
      } else {
        LastWindow(l, w', times[1..], from);
      }
    }
  }

  /** The limit holds of every interval exactly when it lets nothing through at all, or the window is no
      longer than the clock's unit. */
  lemma LimitHoldsIff(l: Limits)
    requires l.windowNs < TWO64
    ensures LimitHolds(l) <==> l.maxMsgs == 0 || l.windowNs <= 1
  {
    hide PassedIn, NoWrap, Clock;
    if l.maxMsgs > 0 && l.windowNs >= 2 {
      var times := BoundIsTight(l);
      assert !KeptFrom(l, times, l.windowNs - 1);
    } else {
      forall times: seq<nat>, from: nat | Clock(Window(0, 0), times) && NoWrap(l, Window(0, 0), times)
        ensures KeptFrom(l, times, from)
      {
        SlidingBound(l, Window(0, 0), times, from);
        if l.windowNs <= 1 { OneInstant(l, Window(0, 0), times, from); }
      }
    }
  }

  // ---------- a clock that goes back ----------

  /** The unsigned difference of a reading before the window's start is nearly 2^64: the message opens a
      window of its own, unless windows are even longer than that. */
  lemma BackIsForward(l: Limits, w: Window, now: nat)
    requires now < w.start < TWO64
    ensures Count(l, w, now)
         == if l.windowNs <= TWO64 - (w.start - now) then Window(now, 1) else w.(count := (w.count + 1) % TWO32)
  {}

  /** `n` readings, each one nanosecond before the last. */
  function Countdown(t: nat, n: nat): seq<nat>
    requires n <= t + 1
  {
    if n == 0 then [] else [t] + if n == 1 then [] else Countdown(t - 1, n - 1)
  }

  /** Then there is no bound at all: any number of messages pass within as many nanoseconds. */
  lemma {:induction false} BackwardsAllPass(l: Limits, w: Window, t: nat, n: nat)
    requires l.maxMsgs > 0 && l.windowNs < TWO64 && w.start == t + 1 < TWO64 && n <= t + 1
    ensures PassedIn(l, w, Countdown(t, n), t + 1 - n, t + 1) == n
    decreases n
  {
    hide Count;
    if n > 0 {
      BackIsForward(l, w, t);
      if n == 1 {
        assert PassedIn(l, Window(t, 1), [], t + 1 - n, t + 1) == 0;
        assert Countdown(t, 1)[1..] == [];
      } else {
        BackwardsAllPass(l, Window(t, 1), t - 1, n - 1);
        CountdownBefore(l, Window(t, 1), t - 1, n - 1, t + 1 - n, t);
        assert Countdown(t, n)[1..] == Countdown(t - 1, n - 1);
      }
    }
  }

  /** Readings before `to` are as well before `to + 1`. */
  lemma {:induction false} CountdownBefore(l: Limits, w: Window, t: nat, n: nat, from: nat, to: nat)
    requires n <= t + 1 && t < to
    ensures PassedIn(l, w, Countdown(t, n), from, to + 1) == PassedIn(l, w, Countdown(t, n), from, to)
    decreases n
  {
    hide Count, Passes;
    if n > 1 {
      assert Countdown(t, n)[1..] == Countdown(t - 1, n - 1);
      CountdownBefore(l, Count(l, w, t), t - 1, n - 1, from, to);
    } else if n == 1 {
      assert Countdown(t, n)[1..] == [];
    }
  }

  // ---------- the limit of the 32-bit count ----------

  /** Every message comes within the window. */
  predicate Within(l: Limits, w: Window, times: seq<nat>) {
    forall i :: 0 <= i < |times| ==> w.start <= times[i] < w.start + l.windowNs && times[i] < TWO64
  }

  lemma WithinStep(l: Limits, w: Window, times: seq<nat>)
    requires Within(l, w, times) && times != []
    ensures Count(l, w, times[0]) == w.(count := Wrap32(w.count + 1))
    ensures Passes(l, w, times[0]) <==> Wrap32(w.count + 1) <= l.maxMsgs
    ensures Within(l, Count(l, w, times[0]), times[1..])
  {}

  lemma {:induction false} WithoutWrap(l: Limits, w: Window, times: seq<nat>)
    requires Within(l, w, times) && w.count + |times| < TWO32
    ensures PassedIn(l, w, times, w.start, w.start + l.windowNs) == Min(Room(l, w), |times|)
    decreases |times|
  {
    hide Count, Passes;
    if times != [] {
      WithinStep(l, w, times);
      WithoutWrap(l, w.(count := w.count + 1), times[1..]);
    }
  }

  lemma {:induction false} WithWrap(l: Limits, w: Window, times: seq<nat>)
    requires Within(l, w, times) && w.count + |times| >= TWO32
    ensures PassedIn(l, w, times, w.start, w.start + l.windowNs) > Room(l, w)
    decreases |times|
  {
    hide Count, Passes;
    WithinStep(l, w, times);
    if w.count + 1 < TWO32 {
      WithWrap(l, w.(count := w.count + 1), times[1..]);
    }
  }

  /** However the messages of one fresh window are spread over it, in order or not: the limit is kept
      if and only if fewer than 2^32 of them arrive; after that the count starts again from zero. */
  lemma WindowKeptIff(l: Limits, t: nat, times: seq<nat>)
    requires Within(l, Window(t, 0), times)
    ensures PassedIn(l, Window(t, 0), times, t, t + l.windowNs) <= l.maxMsgs <==> |times| < TWO32
  {
    if |times| < TWO32 {
      WithoutWrap(l, Window(t, 0), times);
    } else {
      WithWrap(l, Window(t, 0), times);
    }
  }
}

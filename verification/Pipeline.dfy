/** From the socket to the book: framing on the network thread, the order ring between the threads,
    and the engine thread behind it. */
module Pipeline {
  import opened Matching
  import opened BookInvariants
  import opened Fix
  import opened Framing
  import opened Ring
  import opened RateLimit
  import opened Risk
  import opened Gateway

  /** The engine reads its clocks when it handles a message. */
  datatype Stamp = Stamp(nowNs: nat, time: nat)

  function Stamped(ms: seq<FixMessage>, clock: seq<Stamp>): (inbox: seq<Inbound>)
    requires |ms| <= |clock|
    ensures |inbox| == |ms|
  {
    seq(|ms|, i requires 0 <= i < |ms| => Inbound(ms[i], clock[i].nowNs, clock[i].time))
  }

  /** The rate-limit window after a session. */
  function WindowAfter(c: RiskConfig, w: Window, b: Book, inbox: seq<Inbound>): Window
    decreases |inbox|
  {
    if inbox == [] then w
    else
      var b' := if Accepts(c, w, b, inbox[0]) then Step(b, OpOf(inbox[0])).book else b;
      WindowAfter(c, NextWindow(c, w, b, inbox[0]), b', inbox[1..])
  }

  /** A session goes on from where a first part of it left the window and the book. */
  lemma {:induction false} AcceptedOpsConcat(c: RiskConfig, w: Window, b: Book, xs: seq<Inbound>, ys: seq<Inbound>)
    ensures var first := AcceptedOps(c, w, b, xs);
      AcceptedOps(c, w, b, xs + ys) == first + AcceptedOps(c, WindowAfter(c, w, b, xs), Run(b, first).book, ys)
    decreases |xs|
  {
    hide Step, Accepts, OpOf, NextWindow;
    if xs == [] {
      assert xs + ys == ys;
    } else {
      assert (xs + ys)[0] == xs[0] && (xs + ys)[1..] == xs[1..] + ys;
      var w' := NextWindow(c, w, b, xs[0]);
      if Accepts(c, w, b, xs[0]) {
        var op := OpOf(xs[0]);
        var b' := Step(b, op).book;
        var later := AcceptedOps(c, w', b', xs[1..]);
        AcceptedOpsConcat(c, w', b', xs[1..], ys);
        assert ([op] + later)[1..] == later;
      } else {
        AcceptedOpsConcat(c, w', b, xs[1..], ys);
      }
    }
  }

  /** What the engine has done about a first part of the messages is a first part of what it does
      about all of them. */
  lemma EarlierIsPrefix(c: RiskConfig, w: Window, b: Book, xs: seq<Inbound>, all: seq<Inbound>)
    requires xs <= all
    ensures AcceptedOps(c, w, b, xs) <= AcceptedOps(c, w, b, all)
    ensures Run(b, AcceptedOps(c, w, b, xs)).trades <= Run(b, AcceptedOps(c, w, b, all)).trades
  {
    hide Run, AcceptedOps, WindowAfter;
    assert all == xs + all[|xs|..];
    AcceptedOpsConcat(c, w, b, xs, all[|xs|..]);
    var first := AcceptedOps(c, w, b, xs);
    RunConcat(b, first, AcceptedOps(c, WindowAfter(c, w, b, xs), Run(b, first).book, all[|xs|..]));
  }

  /** However the byte stream is cut into reads, and however the two threads interleave, with stale
      index loads and half-written slots: the messages the engine has taken are a first part of the
      messages of the stream, its operations and trades are a first part of those of one thread
      working the whole stream off in order, and they are all of them once the producer has nothing
      left to push and the ring is empty. */
  lemma StreamToBook(chunks: seq<string>, slots: seq<FixMessage>, schedule: seq<Action<FixMessage>>,
                     clock: seq<Stamp>, c: RiskConfig, w: Window, b: Book)
    requires slots != [] && |Messages(Frames(Join(chunks)).frames)| <= |clock|
    requires CanRun(Spin, Start(slots, Messages(Feed("", chunks).frames)), schedule)
    ensures var sent := Messages(Frames(Join(chunks)).frames);
      var s := RunAll(Spin, Start(slots, Messages(Feed("", chunks).frames)), schedule);
      && s.popped <= sent
      && (var done, all := AcceptedOps(c, w, b, Stamped(s.popped, clock)), AcceptedOps(c, w, b, Stamped(sent, clock));
          && done <= all && Run(b, done).trades <= Run(b, all).trades
          && (s.todo == [] && |s.popped| == |s.pushed| ==> s.popped == sent && done == all))
  {
    hide FrameEnd, Frames, Feed, Messages, Join, RunAll, CanRun, AcceptedOps, Run;
    var sent := Messages(Frames(Join(chunks)).frames);
    NoFrameInNothing();
    ChunkIndependence("", chunks);
    assert "" + Join(chunks) == Join(chunks);
    RingIsSafe(Spin, slots, sent, schedule);
    var s := RunAll(Spin, Start(slots, sent), schedule);
    assert s.popped <= s.popped + s.pushed[|s.popped|..] + s.todo;
    assert Stamped(s.popped, clock) <= Stamped(sent, clock);
    EarlierIsPrefix(c, w, b, Stamped(s.popped, clock), Stamped(sent, clock));
  }
}

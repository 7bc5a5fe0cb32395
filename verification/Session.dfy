/** What holds of whole sessions of messages through the gateway. */
module Session {
  import opened Types
  import opened Matching
  import opened BookInvariants
  import opened RateLimit
  import opened Risk
  import opened Gateway

  /** The ids a session brings in are new: not live at the start, and no two messages share one. */
  predicate FreshInbox(b: Book, inbox: seq<Inbound>) {
    && (forall i :: 0 <= i < |inbox| && Gated(inbox[i].msg) ==> !Live(b, OrderIdOf(inbox[i].msg.clOrdID)))
    && (forall i, j :: 0 <= i < j < |inbox| && Gated(inbox[i].msg) && Gated(inbox[j].msg) ==>
          OrderIdOf(inbox[i].msg.clOrdID) != OrderIdOf(inbox[j].msg.clOrdID))
  }

  predicate BringsIn(op: Op, id: OrderId) {
    (op.Submit? && op.order.id == id) || (op.Modify? && op.newId == id)
  }

  /** An operation brings at most its own new id to life. */
  lemma StepIds(b: Book, op: Op, x: OrderId)
    requires Wf(b) && Admissible(b, op) && Live(Step(b, op).book, x)
    ensures Live(b, x) || BringsIn(op, x)
  {
    match op
    case Submit(o, _) =>
      var opp := b.On(o.side.Opposite());
      var m := Consume(o, o.qty, opp);
      ConsumeOk(o.side.Opposite(), o, o.qty, opp);
      InsertHasId(o.side, b.On(o.side), Entry(o.id, o.price, m.left), x);
    case Cancel(id) =>
      if Live(b, id) { SpliceHasId(b.On(SideOf(b, id)), id, [], x); }
    case Modify(orig, new_, p, q) =>
      if Live(b, orig) { ModifiedSide(b, orig, new_, p, q); }
  }

  /** Fresh ids are all a session needs for every accepted operation to be admissible when its turn
      comes. */
  lemma {:induction false} FreshSessionIsAdmissible(c: RiskConfig, w: Window, b: Book, inbox: seq<Inbound>)
    requires Wf(b) && FreshInbox(b, inbox)
    ensures AdmissibleRun(b, AcceptedOps(c, w, b, inbox))
    decreases |inbox|
  {
    if inbox != [] {
      var i, rest := inbox[0], inbox[1..];
      var w' := NextWindow(c, w, b, i);
      assert forall j :: 0 <= j < |rest| ==> rest[j] == inbox[j + 1];
      if Accepts(c, w, b, i) {
        var op := OpOf(i);
        var b' := Step(b, op).book;
        assert Admissible(b, op);
        StepKeepsWf(b, op);
        forall j | 0 <= j < |rest| && Gated(rest[j].msg) ensures !Live(b', OrderIdOf(rest[j].msg.clOrdID)) {
          var x := OrderIdOf(inbox[j + 1].msg.clOrdID);
          assert !Live(b, x);
          if Live(b', x) { StepIds(b, op, x); }
        }
        FreshSessionIsAdmissible(c, w', b', rest);
        assert ([op] + AcceptedOps(c, w', b', rest))[1..] == AcceptedOps(c, w', b', rest);
      } else {
        FreshSessionIsAdmissible(c, w', b, rest);
      }
    }
  }

  /** The quantity an operation brings to the book. */
  predicate WithinSize(c: RiskConfig, op: Op) {
    match op
    case Submit(o, _) => o.qty <= c.maxOrderQty
    case Modify(_, _, _, q) => q <= c.maxOrderQty
    case Cancel(_) => true
  }

  /** Whatever clients send, no order larger than the configured maximum enters the book: the size
      check and the book use the same truncated quantity. */
  lemma {:induction false} SessionRespectsSize(c: RiskConfig, w: Window, b: Book, inbox: seq<Inbound>)
    ensures forall op :: op in AcceptedOps(c, w, b, inbox) ==> WithinSize(c, op)
    decreases |inbox|
  {
    if inbox != [] {
      var i := inbox[0];
      var w' := NextWindow(c, w, b, i);
      if Accepts(c, w, b, i) {
        assert WithinSize(c, OpOf(i));
        SessionRespectsSize(c, w', Step(b, OpOf(i)).book, inbox[1..]);
      } else {
        SessionRespectsSize(c, w', b, inbox[1..]);
      }
    }
  }

  // ---------- the rate limit of a session ----------

  /** An accepted operation and the clock reading it was accepted at. */
  datatype Timed = Timed(op: Op, nowNs: nat)

  function AcceptedAt(c: RiskConfig, w: Window, b: Book, inbox: seq<Inbound>): seq<Timed>
    decreases |inbox|
  {
    if inbox == [] then []
    else
      var w' := NextWindow(c, w, b, inbox[0]);
      if Accepts(c, w, b, inbox[0]) then
        [Timed(OpOf(inbox[0]), inbox[0].nowNs)] + AcceptedAt(c, w', Step(b, OpOf(inbox[0])).book, inbox[1..])
      else AcceptedAt(c, w', b, inbox[1..])
  }

  function Ops(ts: seq<Timed>): seq<Op> {
    if ts == [] then [] else [ts[0].op] + Ops(ts[1..])
  }

  /** New orders and replacements accepted in the half-open interval [from, to). */
  function OrdersIn(ts: seq<Timed>, from: nat, to: nat): nat {
    if ts == [] then 0
    else (if !ts[0].op.Cancel? && from <= ts[0].nowNs < to then 1 else 0) + OrdersIn(ts[1..], from, to)
  }

  /** The clock readings at which the limiter counted a message. */
  function CountedAt(c: RiskConfig, w: Window, b: Book, inbox: seq<Inbound>): seq<nat>
    decreases |inbox|
  {
    if inbox == [] then []
    else
      var b' := if Accepts(c, w, b, inbox[0]) then Step(b, OpOf(inbox[0])).book else b;
      (if Counted(c, b, inbox[0].msg) then [inbox[0].nowNs] else [])
      + CountedAt(c, NextWindow(c, w, b, inbox[0]), b', inbox[1..])
  }

  /** The clock is monotone over the session. */
  predicate InboxClock(w: Window, inbox: seq<Inbound>) {
    && (forall i :: 0 <= i < |inbox| ==> w.start <= inbox[i].nowNs < TWO64)
    && (forall i, j :: 0 <= i < j < |inbox| ==> inbox[i].nowNs <= inbox[j].nowNs)
  }

  lemma {:induction false} AcceptedAtAre(c: RiskConfig, w: Window, b: Book, inbox: seq<Inbound>)
    ensures Ops(AcceptedAt(c, w, b, inbox)) == AcceptedOps(c, w, b, inbox)
    decreases |inbox|
  {
    hide Step, Accepts, NextWindow, OpOf;
    if inbox != [] {
      var i := inbox[0];
      var w' := NextWindow(c, w, b, i);
      if Accepts(c, w, b, i) {
        var b' := Step(b, OpOf(i)).book;
        AcceptedAtAre(c, w', b', inbox[1..]);
        var later := AcceptedAt(c, w', b', inbox[1..]);
        assert ([Timed(OpOf(i), i.nowNs)] + later)[1..] == later;
      } else {
        AcceptedAtAre(c, w', b, inbox[1..]);
      }
    }
  }

  /** What the limiter does about one message. */
  lemma OneCounted(c: RiskConfig, w: Window, b: Book, i: Inbound)
    ensures NextWindow(c, w, b, i) == if Counted(c, b, i.msg) then Count(c.limits, w, i.nowNs) else w
    ensures Accepts(c, w, b, i) ==> (!OpOf(i).Cancel? <==> Counted(c, b, i.msg))
    ensures Counted(c, b, i.msg) ==> (Accepts(c, w, b, i) <==> Passes(c.limits, w, i.nowNs))
  {}

  lemma {:induction false} OrdersArePassed(c: RiskConfig, w: Window, b: Book, inbox: seq<Inbound>, from: nat, to: nat)
    ensures OrdersIn(AcceptedAt(c, w, b, inbox), from, to) == PassedIn(c.limits, w, CountedAt(c, w, b, inbox), from, to)
    decreases |inbox|
  {
    hide Step, Accepts, NextWindow, OpOf, Counted, Passes, Count;
    if inbox != [] {
      var i := inbox[0];
      var w' := NextWindow(c, w, b, i);
      var b' := if Accepts(c, w, b, i) then Step(b, OpOf(i)).book else b;
      OneCounted(c, w, b, i);
      OrdersArePassed(c, w', b', inbox[1..], from, to);
      var times := CountedAt(c, w', b', inbox[1..]);
      assert ([i.nowNs] + times)[1..] == times && [] + times == times;
      if Accepts(c, w, b, i) {
        var later := AcceptedAt(c, w', b', inbox[1..]);
        assert ([Timed(OpOf(i), i.nowNs)] + later)[1..] == later;
      }
    }
  }

  lemma {:induction false} CountedLater(c: RiskConfig, w: Window, b: Book, inbox: seq<Inbound>, t: nat)
    requires forall i :: 0 <= i < |inbox| ==> t <= inbox[i].nowNs < TWO64
    requires forall i, j :: 0 <= i < j < |inbox| ==> inbox[i].nowNs <= inbox[j].nowNs
    ensures Clock(Window(t, 0), CountedAt(c, w, b, inbox))
    decreases |inbox|
  {
    hide Step, Accepts, NextWindow, OpOf, Counted;
    if inbox != [] {
      var b' := if Accepts(c, w, b, inbox[0]) then Step(b, OpOf(inbox[0])).book else b;
      var rest := inbox[1..];
      assert forall i :: 0 <= i < |rest| ==> rest[i] == inbox[i + 1];
      CountedLater(c, NextWindow(c, w, b, inbox[0]), b', rest, inbox[0].nowNs);
    }
  }

  /** However many messages clients send: with a monotone clock and a count that does not wrap, at most
      twice the configured number of new orders and replacements reach the book in any half-open
      interval as long as the window. */
  lemma SessionRateBound(c: RiskConfig, w: Window, b: Book, inbox: seq<Inbound>, from: nat)
    requires InboxClock(w, inbox) && NoWrap(c.limits, w, CountedAt(c, w, b, inbox))
    ensures var ts := AcceptedAt(c, w, b, inbox);
      Ops(ts) == AcceptedOps(c, w, b, inbox) && OrdersIn(ts, from, from + c.limits.windowNs) <= 2 * c.limits.maxMsgs
  {
    hide AcceptedAt, AcceptedOps, Ops, OrdersIn, NoWrap, PassedIn;
    AcceptedAtAre(c, w, b, inbox);
    CountedLater(c, w, b, inbox, w.start);
    OrdersArePassed(c, w, b, inbox, from, from + c.limits.windowNs);
    SlidingBound(c.limits, w, CountedAt(c, w, b, inbox), from);
  }

  /** Without cancel/replace messages the book is never crossed. */
  lemma {:induction false} PlainSessionUncrossed(c: RiskConfig, w: Window, b: Book, inbox: seq<Inbound>)
    requires Wf(b) && Uncrossed(b) && FreshInbox(b, inbox)
    requires forall i :: 0 <= i < |inbox| ==> inbox[i].msg.msgType != 'G'
    ensures Uncrossed(Run(b, AcceptedOps(c, w, b, inbox)).book)
  {
    FreshSessionIsAdmissible(c, w, b, inbox);
    NoReplaceNoModify(c, w, b, inbox);
    RunStaysUncrossed(b, AcceptedOps(c, w, b, inbox));
  }

  lemma {:induction false} NoReplaceNoModify(c: RiskConfig, w: Window, b: Book, inbox: seq<Inbound>)
    requires forall i :: 0 <= i < |inbox| ==> inbox[i].msg.msgType != 'G'
    ensures NoModifyThrough(b, AcceptedOps(c, w, b, inbox))
    decreases |inbox|
  {
    if inbox != [] {
      var i := inbox[0];
      var w' := NextWindow(c, w, b, i);
      if Accepts(c, w, b, i) {
        var b' := Step(b, OpOf(i)).book;
        NoReplaceNoModify(c, w', b', inbox[1..]);
        assert ([OpOf(i)] + AcceptedOps(c, w', b', inbox[1..]))[1..] == AcceptedOps(c, w', b', inbox[1..]);
      } else {
        NoReplaceNoModify(c, w', b, inbox[1..]);
      }
    }
  }
}

/** Price-time priority over whole runs. */
module Priority {
  import opened Types
  import opened Matching
  import opened MatchingLemmas
  import opened BookInvariants

  // ---------- reading the trade log ----------

  /** Quantity the log debits to `id` on side `s`. */
  function Filled(s: Side, ts: seq<Trade>, id: OrderId): nat {
    if ts == [] then 0
    else (if (if s == BUY then ts[0].buyId else ts[0].sellId) == id then ts[0].qty else 0) + Filled(s, ts[1..], id)
  }

  predicate Names(t: Trade, id: OrderId) {
    t.buyId == id || t.sellId == id
  }

  predicate Untouched(ts: seq<Trade>, id: OrderId) {
    forall i :: 0 <= i < |ts| ==> !Names(ts[i], id)
  }

  lemma {:induction false} FilledConcat(s: Side, a: seq<Trade>, b: seq<Trade>, id: OrderId)
    ensures Filled(s, a + b, id) == Filled(s, a, id) + Filled(s, b, id)
  {
    if a == [] {
      assert a + b == b;
    } else {
      assert (a + b)[1..] == a[1..] + b;
      FilledConcat(s, a[1..], b, id);
    }
  }

  /** The log debits the resting side with exactly the fills, and the taker with their total. */
  lemma {:induction false} FilledByTrades(o: NewOrder, fills: seq<Entry>, time: nat, id: OrderId)
    ensures Filled(o.side.Opposite(), Trades(o, fills, time), id) == QtyOf(fills, id)
    ensures Filled(o.side, Trades(o, fills, time), id) == if id == o.id then Volume(fills) else 0
  {
    if fills != [] {
      assert Trades(o, fills, time)[1..] == Trades(o, fills[1..], time);
      FilledByTrades(o, fills[1..], time, id);
    }
  }

  // ---------- one operation ----------

  /** `a` stands before `b` in the queue of one side. */
  predicate Ahead(l: seq<Entry>, a: Entry, b: Entry) {
    exists i, j :: 0 <= i < j < |l| && l[i] == a && l[j] == b
  }

  /** `a` has been filled by `t` units in all, is still ahead of `b`, and `b` has not traded. */
  predicate StillAhead(l: seq<Entry>, ts: seq<Trade>, s: Side, a: Entry, b: Entry) {
    var t := Filled(s, ts, a.id);
    t <= a.qty && Ahead(l, a.(qty := a.qty - t), b) && Untouched(ts, b.id)
  }

  /** `a` was filled completely by trades none of which involves `b`. */
  predicate FilledFirst(ts: seq<Trade>, s: Side, a: Entry, b: OrderId) {
    exists k :: 0 <= k <= |ts| && Filled(s, ts[..k], a.id) == a.qty && Untouched(ts[..k], b)
  }

  lemma InsertKeepsAhead(s: Side, l: seq<Entry>, e: Entry, a: Entry, b: Entry)
    requires Ahead(l, a, b)
    ensures Ahead(Insert(s, l, e), a, b)
  {
    var k := InsertShape(s, l, e);
    var i, j :| 0 <= i < j < |l| && l[i] == a && l[j] == b;
    var i', j' := if i < k then i else i + 1, if j < k then j else j + 1;
    assert Insert(s, l, e)[i'] == a && Insert(s, l, e)[j'] == b;
  }

  lemma SpliceKeepsAhead(l: seq<Entry>, id: OrderId, r: seq<Entry>, a: Entry, b: Entry)
    requires Ahead(l, a, b) && HasId(l, id) && id != a.id && id != b.id
    ensures Ahead(Splice(l, id, r), a, b)
  {
    hide Splice;
    var k := SpliceShape(l, id, r);
    var i, j :| 0 <= i < j < |l| && l[i] == a && l[j] == b;
    var i', j' := if i < k then i else i - 1 + |r|, if j < k then j else j - 1 + |r|;
    assert Splice(l, id, r)[i'] == a && Splice(l, id, r)[j'] == b;
  }

  lemma QtyOfPrefix(l: seq<Entry>, i: nat)
    requires UniqueIds(l) && i < |l|
    ensures QtyOf(l[..i + 1], l[i].id) == l[i].qty
    ensures QtyOf(l[..i], l[i].id) == 0
  {
    QtyOfUnique(l[..i + 1], i);
    QtyOfAbsent(l[..i], l[i].id);
  }

  /** The k-th fill is against the k-th resting order, and all but the last take the whole order. */
  lemma FillsArePrefix(o: NewOrder, q: nat, l: seq<Entry>)
    ensures var fills := Consume(o, q, l).fills;
      && |fills| <= |l|
      && forall x :: 0 <= x < |fills| ==> fills[x].id == l[x].id && (x < |fills| - 1 ==> fills[x] == l[x])
  {
    var m := Consume(o, q, l);
    ConsumeShape(o, q, l);
    if PartialFill(m, l) {
      forall x | 0 <= x < |m.fills| - 1 ensures m.fills[x] == l[x] {
        assert m.fills[..|m.fills| - 1][x] == l[..|m.fills| - 1][x];
      }
    }
  }

  lemma BehindInRest(o: NewOrder, q: nat, l: seq<Entry>, i: nat)
    requires |Consume(o, q, l).fills| <= i < |l|
    ensures var rest := Consume(o, q, l).rest; var d := |l| - |rest|; 0 <= d <= i && rest[i - d] == l[i]
  {
    hide Consume;
    ConsumeShape(o, q, l);
  }

  lemma BehindTheFills(o: NewOrder, l: seq<Entry>, time: nat, i: nat, j: nat)
    requires UniqueIds(l) && i < j < |l| && o.id != l[i].id && o.id != l[j].id
    requires |Consume(o, o.qty, l).fills| <= i
    ensures var m := Consume(o, o.qty, l);
      StillAhead(m.rest, Trades(o, m.fills, time), o.side.Opposite(), l[i], l[j])
  {
    hide Consume;
    var m := Consume(o, o.qty, l);
    BehindInRest(o, o.qty, l, i);
    BehindInRest(o, o.qty, l, j);
    FillsArePrefix(o, o.qty, l);
    FilledByTrades(o, m.fills, time, l[i].id);
    QtyOfAbsent(m.fills, l[i].id);
    var d := |l| - |m.rest|;
    assert Ahead(m.rest, m.rest[i - d], m.rest[j - d]);
  }

  lemma AtTheLastFill(o: NewOrder, l: seq<Entry>, time: nat, i: nat, j: nat)
    requires UniqueIds(l) && i < j < |l| && o.id != l[i].id && o.id != l[j].id
    requires var m := Consume(o, o.qty, l); PartialFill(m, l) && |m.fills| == i + 1
    ensures var m := Consume(o, o.qty, l);
      StillAhead(m.rest, Trades(o, m.fills, time), o.side.Opposite(), l[i], l[j])
  {
    var m := Consume(o, o.qty, l);
    FillsArePrefix(o, o.qty, l);
    FilledByTrades(o, m.fills, time, l[i].id);
    QtyOfUnique(m.fills, i);
    assert m.rest[0] == l[i].(qty := l[i].qty - m.fills[i].qty) && m.rest[j - i] == l[j];
  }

  lemma WithinTheFills(o: NewOrder, l: seq<Entry>, time: nat, i: nat, j: nat)
    requires UniqueIds(l) && i < j < |l| && o.id != l[i].id && o.id != l[j].id
    requires var m := Consume(o, o.qty, l); i < |m.fills| && m.fills[i] == l[i]
    ensures FilledFirst(Trades(o, Consume(o, o.qty, l).fills, time), o.side.Opposite(), l[i], l[j].id)
  {
    var m := Consume(o, o.qty, l);
    var ts := Trades(o, m.fills, time);
    FillsArePrefix(o, o.qty, l);
    assert m.fills[..i + 1] == l[..i + 1];
    QtyOfPrefix(l, i);
    assert Trades(o, m.fills[..i + 1], time) == ts[..i + 1];
    FilledByTrades(o, m.fills[..i + 1], time, l[i].id);
    assert Untouched(ts[..i + 1], l[j].id);
  }

  lemma MatchingKeepsPriority(o: NewOrder, l: seq<Entry>, time: nat, a: Entry, b: Entry)
    requires UniqueIds(l) && Ahead(l, a, b) && o.id != a.id && o.id != b.id
    ensures var m := Consume(o, o.qty, l); var ts := Trades(o, m.fills, time);
      StillAhead(m.rest, ts, o.side.Opposite(), a, b) || FilledFirst(ts, o.side.Opposite(), a, b.id)
  {
    var m := Consume(o, o.qty, l);
    ConsumeShape(o, o.qty, l);
    FillsArePrefix(o, o.qty, l);
    var i, j :| 0 <= i < j < |l| && l[i] == a && l[j] == b;
    if |m.fills| <= i {
      BehindTheFills(o, l, time, i, j);
    } else if |m.fills| == i + 1 && PartialFill(m, l) {
      AtTheLastFill(o, l, time, i, j);
    } else {
      WithinTheFills(o, l, time, i, j);
    }
  }

  /** The run neither cancels nor modifies `id`. */
  predicate LeftAlone(ops: seq<Op>, id: OrderId) {
    forall i :: 0 <= i < |ops| ==> ops[i] != Cancel(id) && !(ops[i].Modify? && ops[i].origId == id)
  }

  lemma AheadHasIds(l: seq<Entry>, e: Entry, f: Entry)
    requires Ahead(l, e, f)
    ensures HasId(l, e.id) && HasId(l, f.id)
  {
    var i, j :| 0 <= i < j < |l| && l[i] == e && l[j] == f;
    assert l[i].id == e.id && l[j].id == f.id;
  }

  /** The taker queues on the side of `e` and `f`: its trades name neither. */
  lemma SameSideSubmit(b: Book, o: NewOrder, time: nat, e: Entry, f: Entry)
    requires Wf(b) && !Live(b, o.id) && Ahead(b.On(o.side), e, f)
    ensures StillAhead(SubmittedBook(b, o).On(o.side), SubmittedTrades(b, o, time), o.side, e, f)
  {
    hide Consume, Insert, Wf;
    var opp := b.On(o.side.Opposite());
    var m := Consume(o, o.qty, opp);
    AheadHasIds(b.On(o.side), e, f);
    FilledByTrades(o, m.fills, time, e.id);
    FillsArePrefix(o, o.qty, opp);
    WfByLists(b);
    assert forall x :: 0 <= x < |m.fills| ==> HasId(opp, opp[x].id);
    assert Untouched(SubmittedTrades(b, o, time), f.id);
    InsertKeepsAhead(o.side, b.On(o.side), Entry(o.id, o.price, m.left), e, f);
  }

  lemma ModifyKeepsAhead(b: Book, orig: OrderId, new_: OrderId, p: Price, q: nat, s: Side, e: Entry, f: Entry)
    requires Live(b, orig) && Ahead(b.On(s), e, f) && orig != e.id && orig != f.id
    ensures Ahead(ModifiedBook(b, orig, new_, p, q).On(s), e, f)
  {
    if SideOf(b, orig) == s {
      SpliceKeepsAhead(b.On(s), orig, [Entry(new_, p, q)], e, f);
      SpliceKeepsAhead(b.On(s), orig, [], e, f);
      InsertKeepsAhead(s, Splice(b.On(s), orig, []), Entry(new_, p, q), e, f);
    }
  }

  lemma AheadUntouched(l: seq<Entry>, s: Side, e: Entry, f: Entry)
    requires Ahead(l, e, f)
    ensures StillAhead(l, [], s, e, f)
  {}

  lemma SubmitKeepsPriority(b: Book, o: NewOrder, time: nat, s: Side, e: Entry, f: Entry)
    requires Wf(b) && !Live(b, o.id) && Ahead(b.On(s), e, f)
    ensures var r := Submitted(b, o, time);
      StillAhead(r.book.On(s), r.trades, s, e, f) || FilledFirst(r.trades, s, e, f.id)
  {
    hide StillAhead, FilledFirst, Consume, Insert, Ahead;
    AheadHasIds(b.On(s), e, f);
    if s == o.side.Opposite() {
      MatchingKeepsPriority(o, b.On(s), time, e, f);
    } else {
      SameSideSubmit(b, o, time, e, f);
    }
  }

  lemma StepKeepsPriority(b: Book, op: Op, s: Side, e: Entry, f: Entry)
    requires Wf(b) && Admissible(b, op) && Ahead(b.On(s), e, f)
    requires LeftAlone([op], e.id) && LeftAlone([op], f.id)
    ensures var r := Step(b, op);
      StillAhead(r.book.On(s), r.trades, s, e, f) || FilledFirst(r.trades, s, e, f.id)
  {
    hide StillAhead, FilledFirst, Ahead, Submitted, ModifiedBook, Splice, Wf;
    assert [op][0] == op;
    AheadUntouched(b.On(s), s, e, f);
    match op
    case Submit(o, time) =>
      SubmitKeepsPriority(b, o, time, s, e, f);
    case Cancel(id) =>
      if Live(b, id) && SideOf(b, id) == s {
        SpliceKeepsAhead(b.On(s), id, [], e, f);
        AheadUntouched(Splice(b.On(s), id, []), s, e, f);
      }
    case Modify(orig, new_, p, q) =>
      if Live(b, orig) {
        ModifyKeepsAhead(b, orig, new_, p, q, s, e, f);
        AheadUntouched(ModifiedBook(b, orig, new_, p, q).On(s), s, e, f);
      }
  }

  // ---------- runs ----------

  lemma UntouchedConcat(a: seq<Trade>, b: seq<Trade>, id: OrderId)
    ensures Untouched(a + b, id) <==> Untouched(a, id) && Untouched(b, id)
  {
    assert forall i :: 0 <= i < |a| ==> (a + b)[i] == a[i];
    assert forall i :: 0 <= i < |b| ==> (a + b)[|a| + i] == b[i];
  }

  lemma FilledFirstExtends(a: seq<Trade>, ts: seq<Trade>, s: Side, e: Entry, f: OrderId)
    requires FilledFirst(a, s, e, f)
    ensures FilledFirst(a + ts, s, e, f)
  {
    var k :| 0 <= k <= |a| && Filled(s, a[..k], e.id) == e.qty && Untouched(a[..k], f);
    assert (a + ts)[..k] == a[..k];
  }

  /** What happened before does not matter: `e` was already filled by `done`. */
  lemma FilledFirstAfter(a: seq<Trade>, ts: seq<Trade>, s: Side, e: Entry, f: OrderId)
    requires Untouched(a, f) && Filled(s, a, e.id) <= e.qty
    requires FilledFirst(ts, s, e.(qty := e.qty - Filled(s, a, e.id)), f)
    ensures FilledFirst(a + ts, s, e, f)
  {
    var k :| 0 <= k <= |ts| && Filled(s, ts[..k], e.id) == e.qty - Filled(s, a, e.id) && Untouched(ts[..k], f);
    assert (a + ts)[..|a| + k] == a + ts[..k];
    FilledConcat(s, a, ts[..k], e.id);
    UntouchedConcat(a, ts[..k], f);
  }

  lemma StillAheadAfter(a: seq<Trade>, l: seq<Entry>, ts: seq<Trade>, s: Side, e: Entry, f: Entry)
    requires Untouched(a, f.id) && Filled(s, a, e.id) <= e.qty
    requires StillAhead(l, ts, s, e.(qty := e.qty - Filled(s, a, e.id)), f)
    ensures StillAhead(l, a + ts, s, e, f)
  {
    FilledConcat(s, a, ts, e.id);
    UntouchedConcat(a, ts, f.id);
  }

  lemma {:induction false} AheadOverRun(b: Book, ops: seq<Op>, s: Side, e: Entry, f: Entry)
    requires Wf(b) && AdmissibleRun(b, ops) && Ahead(b.On(s), e, f)
    requires LeftAlone(ops, e.id) && LeftAlone(ops, f.id)
    ensures var r := Run(b, ops);
      StillAhead(r.book.On(s), r.trades, s, e, f) || FilledFirst(r.trades, s, e, f.id)
    decreases |ops|
  {
    hide Wf, Ahead, Untouched, Step, Admissible, FilledFirst, Filled;
    if ops == [] {
      AheadUntouched(b.On(s), s, e, f);
    } else {
      var first := Step(b, ops[0]);
      var later := Run(first.book, ops[1..]);
      StepKeepsPriority(b, ops[0], s, e, f);
      if FilledFirst(first.trades, s, e, f.id) {
        FilledFirstExtends(first.trades, later.trades, s, e, f.id);
      } else {
        StepKeepsWf(b, ops[0]);
        var e' := e.(qty := e.qty - Filled(s, first.trades, e.id));
        AheadOverRun(first.book, ops[1..], s, e', f);
        if FilledFirst(later.trades, s, e', f.id) {
          FilledFirstAfter(first.trades, later.trades, s, e, f.id);
        } else {
          StillAheadAfter(first.trades, later.book.On(s), later.trades, s, e, f);
        }
      }
    }
  }

  lemma FilledGrows(s: Side, ts: seq<Trade>, i: nat, j: nat, id: OrderId)
    requires i <= j <= |ts|
    ensures Filled(s, ts[..i], id) <= Filled(s, ts[..j], id)
  {
    assert ts[..j] == ts[..i] + ts[i..j];
    FilledConcat(s, ts[..i], ts[i..j], id);
  }

  /** Priority over whole runs: if `e` stands before `f` on one side - at a better price, or
      earlier at the same price - then in any run that neither cancels nor modifies either, no trade
      involves `f` until the trades before it have filled `e` completely; and as long as `e` is not
      full the two keep their order, `f` with its quantity unchanged. */
  lemma PriorityOverRun(b: Book, ops: seq<Op>, s: Side, e: Entry, f: Entry)
    requires Wf(b) && AdmissibleRun(b, ops) && Ahead(b.On(s), e, f)
    requires LeftAlone(ops, e.id) && LeftAlone(ops, f.id)
    ensures var r := Run(b, ops);
      && (forall i :: 0 <= i < |r.trades| && Names(r.trades[i], f.id) ==> Filled(s, r.trades[..i], e.id) >= e.qty)
      && (Filled(s, r.trades, e.id) < e.qty ==> StillAhead(r.book.On(s), r.trades, s, e, f))
  {
    var ts := Run(b, ops).trades;
    AheadOverRun(b, ops, s, e, f);
    if FilledFirst(ts, s, e, f.id) {
      var k :| 0 <= k <= |ts| && Filled(s, ts[..k], e.id) == e.qty && Untouched(ts[..k], f.id);
      assert forall x :: 0 <= x < k ==> ts[..k][x] == ts[x];
      forall i | 0 <= i < |ts| && Names(ts[i], f.id) ensures Filled(s, ts[..i], e.id) >= e.qty {
        FilledGrows(s, ts, k, i, e.id);
      }
      FilledGrows(s, ts, k, |ts|, e.id);
      assert ts[..|ts|] == ts;
    }
  }
}

/** The feed at the far end of the market-data ring, whose producer drops a message when it is full:
    for which runs a reader that catches up can be left with a price the book no longer has. */
module MarketFeed {
  import opened Types
  import opened Matching
  import opened Feed
  import opened Ring

  predicate SamePrices(m: Bbo, m': Bbo) {
    m.bidPrice == m'.bidPrice && m.askPrice == m'.askPrice
  }

  /** Everything was offered to the ring, and everything the ring took was read. */
  predicate Drained<T>(s: State<T>) {
    s.todo == [] && |s.popped| == |s.pushed|
  }

  // ---------- a push is refused only by a full ring ----------

  function Count(outcomes: seq<bool>): nat {
    if outcomes == [] then 0 else (if outcomes[|outcomes| - 1] then 1 else 0) + Count(outcomes[..|outcomes| - 1])
  }

  /** Before every refusal the ring had taken as many as it has room for. */
  predicate RefusedWhenFull(outcomes: seq<bool>, size: nat) {
    forall i :: 0 <= i < |outcomes| && !outcomes[i] ==> Count(outcomes[..i]) >= size - 1
  }

  lemma CountSnoc(outcomes: seq<bool>, ok: bool)
    ensures Count(outcomes + [ok]) == Count(outcomes) + if ok then 1 else 0
  {
    assert (outcomes + [ok])[..|outcomes|] == outcomes;
  }

  lemma RefusedSnoc(outcomes: seq<bool>, ok: bool, size: nat)
    requires RefusedWhenFull(outcomes, size) && (!ok ==> Count(outcomes) >= size - 1)
    ensures RefusedWhenFull(outcomes + [ok], size)
  {
    forall i | 0 <= i < |outcomes + [ok]| && !(outcomes + [ok])[i]
      ensures Count((outcomes + [ok])[..i]) >= size - 1
    {
      assert (outcomes + [ok])[..i] == outcomes[..i];
      assert i == |outcomes| ==> outcomes[..i] == outcomes;
    }
  }

  lemma StepRefuses<T>(s: State<T>, a: Action<T>)
    requires Inv(s) && Enabled(s, a) && RefusedWhenFull(s.outcomes, |s.slots|) && Count(s.outcomes) == |s.pushed|
    ensures var s' := Apply(Drop, s, a);
      |s'.slots| == |s.slots| && RefusedWhenFull(s'.outcomes, |s'.slots|) && Count(s'.outcomes) == |s'.pushed|
  {
    hide Stored, RefusedWhenFull, Count;
    CountSnoc(s.outcomes, true);
    CountSnoc(s.outcomes, false);
    if a.CheckFull? { CheckFullKeepsInv(Drop, s); }
    if Count(s.outcomes) >= |s.slots| - 1 { RefusedSnoc(s.outcomes, false, |s.slots|); }
    RefusedSnoc(s.outcomes, true, |s.slots|);
  }

  lemma {:induction false} RunRefuses<T>(s: State<T>, schedule: seq<Action<T>>)
    requires Inv(s) && CanRun(Drop, s, schedule)
    requires RefusedWhenFull(s.outcomes, |s.slots|) && Count(s.outcomes) == |s.pushed|
    ensures var s' := RunAll(Drop, s, schedule); |s'.slots| == |s.slots| && RefusedWhenFull(s'.outcomes, |s'.slots|)
    decreases |schedule|
  {
    hide Inv, RefusedWhenFull, Count, Apply, Enabled;
    HasSlots(s);
    if schedule != [] {
      StepRefuses(s, schedule[0]);
      StepKeepsInv(Drop, s, schedule[0]);
      RunRefuses(Apply(Drop, s, schedule[0]), schedule[1..]);
    }
  }

  /** The last message that got through is the last one offered, or the ring was full right after it. */
  lemma {:induction false} LastKept(input: seq<Bbo>, outcomes: seq<bool>, size: nat) returns (j: nat)
    requires |outcomes| == |input| && input != [] && size >= 2 && RefusedWhenFull(outcomes, size)
    ensures var a := Accepted(input, outcomes); a != [] && j < |input| && a[|a| - 1] == input[j]
    ensures j == |input| - 1 || j >= size - 2
    decreases |input|
  {
    var k := |input| - 1;
    var early := outcomes[..k];
    assert outcomes == early + [outcomes[k]];
    AcceptedPrefix(input, outcomes, k);
    if outcomes[k] {
      j := k;
    } else {
      assert Count(early) >= size - 1;
      AcceptedCount(input[..k], early);
      forall i | 0 <= i < k && !early[i] ensures Count(early[..i]) >= size - 1 {
        assert early[..i] == outcomes[..i];
      }
      j := LastKept(input[..k], early, size);
      CountAtMost(early);
    }
  }

  lemma AcceptedPrefix(input: seq<Bbo>, outcomes: seq<bool>, k: nat)
    requires |outcomes| == |input| == k + 1
    ensures Accepted(input, outcomes) == Accepted(input[..k], outcomes[..k]) + if outcomes[k] then [input[k]] else []
  {
    assert outcomes == outcomes[..k] + [outcomes[k]];
    AcceptedOneMore(input, outcomes[..k], outcomes[k]);
    AcceptedIgnores(input, outcomes[..k]);
  }

  lemma {:induction false} AcceptedIgnores(input: seq<Bbo>, outcomes: seq<bool>)
    requires |outcomes| <= |input|
    ensures Accepted(input, outcomes) == Accepted(input[..|outcomes|], outcomes)
  {
    if outcomes != [] {
      AcceptedIgnores(input[1..], outcomes[1..]);
      assert input[..|outcomes|][1..] == input[1..][..|outcomes| - 1];
    }
  }

  lemma {:induction false} AcceptedCount(input: seq<Bbo>, outcomes: seq<bool>)
    requires |outcomes| == |input|
    ensures |Accepted(input, outcomes)| == Count(outcomes)
    decreases |input|
  {
    if input != [] {
      var k := |input| - 1;
      AcceptedPrefix(input, outcomes, k);
      AcceptedCount(input[..k], outcomes[..k]);
    }
  }

  lemma {:induction false} CountAtMost(outcomes: seq<bool>)
    ensures Count(outcomes) <= |outcomes|
  {
    if outcomes != [] { CountAtMost(outcomes[..|outcomes| - 1]); }
  }

  // ---------- every prefix the ring can end on ----------

  /** Between two calls on either side. */
  ghost predicate Resting<T>(s: State<T>) {
    Inv(s) && s.producer.Idle? && s.consumer.Waiting?
  }

  /** The schedule can be run from one state, and leads to the other. */
  ghost predicate Leads<T>(s: State<T>, schedule: seq<Action<T>>, s': State<T>) {
    s.slots != [] && CanRun(Drop, s, schedule) && RunAll(Drop, s, schedule) == s'
  }

  lemma {:induction false} LeadsOn<T>(s: State<T>, xs: seq<Action<T>>, s': State<T>, ys: seq<Action<T>>, s'': State<T>)
    requires Leads(s, xs, s') && Leads(s', ys, s'')
    ensures Leads(s, xs + ys, s'')
    decreases |xs|
  {
    hide Apply, Enabled;
    if xs == [] {
      assert xs + ys == ys;
    } else {
      assert (xs + ys)[0] == xs[0] && (xs + ys)[1..] == xs[1..] + ys;
      StaysARing(s, xs[0]);
      LeadsOn(Apply(Drop, s, xs[0]), xs[1..], s', ys, s'');
    }
  }

  lemma StaysARing<T>(s: State<T>, a: Action<T>)
    requires s.slots != [] && Enabled(s, a)
    ensures |Apply(Drop, s, a).slots| == |s.slots|
  {}

  lemma OneStep<T>(s: State<T>, a: Action<T>) returns (s': State<T>)
    requires Inv(s) && Enabled(s, a)
    ensures s.slots != [] && s' == Apply(Drop, s, a) && Inv(s') && |s'.slots| == |s.slots| && Leads(s, [a], s')
  {
    HasSlots(s);
    StepKeepsInv(Drop, s, a);
    s' := Apply(Drop, s, a);
    StaysARing(s, a);
    RunNone(Drop, s');
    assert [a][1..] == [];
  }

  /** A push that sees every pop: loaded and checked. */
  lemma Checked<T>(s: State<T>) returns (schedule: seq<Action<T>>, s': State<T>)
    requires Resting(s) && s.todo != []
    ensures Leads(s, schedule, s') && Inv(s') && |s'.slots| == |s.slots|
    ensures var s1 := s.(tailSeen := |s.popped|);
      s' == if |s.pushed| - |s.popped| == |s.slots| - 1 then s1.(todo := s.todo[1..], outcomes := s.outcomes + [false])
            else s1.(producer := Writing)
  {
    hide Leads, Stored;
    var s1 := OneStep(s, LoadTail(|s.popped|));
    CheckFullKeepsInv(Drop, s1);
    s' := OneStep(s1, CheckFull);
    schedule := [LoadTail(|s.popped|)] + [CheckFull];
    LeadsOn(s, [LoadTail(|s.popped|)], s1, [CheckFull], s');
  }

  lemma PushOne<T>(s: State<T>) returns (schedule: seq<Action<T>>, s': State<T>)
    requires Resting(s) && s.todo != [] && |s.pushed| - |s.popped| < |s.slots| - 1
    ensures Leads(s, schedule, s') && Resting(s') && |s'.slots| == |s.slots|
    ensures s'.pushed == s.pushed + [s.todo[0]] && s'.popped == s.popped && s'.todo == s.todo[1..]
  {
    hide Leads, Stored, ConsumerOk;
    var check, s2 := Checked(s);
    HasSlots(s2);
    var s3 := OneStep(s2, WriteSlot);
    s' := OneStep(s3, StoreHead);
    LeadsOn(s, check, s2, [WriteSlot], s3);
    LeadsOn(s, check + [WriteSlot], s3, [StoreHead], s');
    schedule := check + [WriteSlot] + [StoreHead];
  }

  lemma DropOne<T>(s: State<T>) returns (schedule: seq<Action<T>>, s': State<T>)
    requires Resting(s) && s.todo != [] && |s.pushed| - |s.popped| == |s.slots| - 1
    ensures Leads(s, schedule, s') && Resting(s') && |s'.slots| == |s.slots|
    ensures s'.pushed == s.pushed && s'.popped == s.popped && s'.todo == s.todo[1..]
  {
    hide Leads, Inv;
    schedule, s' := Checked(s);
  }

  lemma PopOne<T>(s: State<T>) returns (schedule: seq<Action<T>>, s': State<T>)
    requires Resting(s) && |s.popped| < |s.pushed|
    ensures Leads(s, schedule, s') && Resting(s') && |s'.slots| == |s.slots|
    ensures s'.pushed == s.pushed && |s'.popped| == |s.popped| + 1 && s'.todo == s.todo
  {
    hide Leads, Stored, ProducerOk;
    var load := LoadHead(|s.pushed|);
    var s1 := OneStep(s, load);
    CheckEmptyKeepsInv(Drop, s1);
    var s2 := OneStep(s1, CheckEmpty);
    TailInside(s2);
    var s3 := OneStep(s2, ReadSlot);
    s' := OneStep(s3, StoreTail);
    LeadsOn(s, [load], s1, [CheckEmpty], s2);
    LeadsOn(s, [load] + [CheckEmpty], s2, [ReadSlot], s3);
    LeadsOn(s, [load] + [CheckEmpty] + [ReadSlot], s3, [StoreTail], s');
    schedule := [load] + [CheckEmpty] + [ReadSlot] + [StoreTail];
  }

  lemma TailInside<T>(s: State<T>)
    requires Inv(s)
    ensures s.tail < |s.slots|
  {}

  lemma NoSteps<T>(s: State<T>)
    requires Inv(s)
    ensures Leads(s, [], s)
  {
    HasSlots(s);
    RunNone(Drop, s);
  }

  /** The ring takes the next `k` messages, and the reader pops only to make room. */
  lemma {:induction false} KeepNext<T>(s: State<T>, k: nat) returns (schedule: seq<Action<T>>, s': State<T>)
    requires Resting(s) && |s.slots| >= 2 && k <= |s.todo|
    ensures Leads(s, schedule, s') && Resting(s') && |s'.slots| == |s.slots|
    ensures s'.pushed == s.pushed + s.todo[..k] && s'.todo == s.todo[k..]
    ensures |s'.pushed| - |s'.popped| == Min(|s.slots| - 1, |s.pushed| - |s.popped| + k)
    decreases k
  {
    hide Leads, Inv;
    AtMostFull(s);
    if k == 0 {
      NoSteps(s);
      schedule, s' := [], s;
      assert s.pushed + [] == s.pushed;
    } else {
      var room, s1 := [], s;
      NoSteps(s);
      if |s.pushed| - |s.popped| == |s.slots| - 1 {
        room, s1 := PopOne(s);
      }
      var push, s2 := PushOne(s1);
      var rest;
      rest, s' := KeepNext(s2, k - 1);
      LeadsOn(s, room, s1, push, s2);
      LeadsOn(s, room + push, s2, rest, s');
      schedule := room + push + rest;
      assert s.todo[..k] == [s.todo[0]] + s.todo[1..][..k - 1] && s.todo[1..][k - 1..] == s.todo[k..];
      Assoc(s.pushed, [s.todo[0]], s.todo[1..][..k - 1]);
    }
  }

  lemma AtMostFull<T>(s: State<T>)
    requires Inv(s)
    ensures 0 <= |s.pushed| - |s.popped| <= |s.slots| - 1
  {}

  /** A full ring that nobody reads drops all that is left. */
  lemma {:induction false} DropRest<T>(s: State<T>) returns (schedule: seq<Action<T>>, s': State<T>)
    requires Resting(s) && |s.pushed| - |s.popped| == |s.slots| - 1
    ensures Leads(s, schedule, s') && Resting(s') && |s'.slots| == |s.slots|
    ensures s'.pushed == s.pushed && s'.popped == s.popped && s'.todo == []
    decreases |s.todo|
  {
    hide Leads, Inv;
    if s.todo == [] {
      NoSteps(s);
      schedule, s' := [], s;
    } else {
      var drop, s1 := DropOne(s);
      var rest;
      rest, s' := DropRest(s1);
      LeadsOn(s, drop, s1, rest, s');
      schedule := drop + rest;
    }
  }

  /** The reader catches up. */
  lemma {:induction false} ReadRest<T>(s: State<T>) returns (schedule: seq<Action<T>>, s': State<T>)
    requires Resting(s)
    ensures Leads(s, schedule, s') && s'.pushed == s.pushed && s'.todo == s.todo && |s'.popped| == |s'.pushed|
    decreases |s.pushed| - |s.popped|
  {
    hide Leads, Inv;
    AtMostFull(s);
    if |s.popped| == |s.pushed| {
      NoSteps(s);
      schedule, s' := [], s;
    } else {
      var pop, s1 := PopOne(s);
      var rest;
      rest, s' := ReadRest(s1);
      LeadsOn(s, pop, s1, rest, s');
      schedule := pop + rest;
    }
  }

  /** Once it holds all it has room for, the ring can end on any message. */
  lemma EndOn<T>(slots: seq<T>, input: seq<T>, j: nat) returns (schedule: seq<Action<T>>)
    requires |slots| >= 2 && |slots| - 2 <= j < |input|
    ensures CanRun(Drop, Start(slots, input), schedule)
    ensures var s := RunAll(Drop, Start(slots, input), schedule); Drained(s) && s.pushed == input[..j + 1]
  {
    hide CanRun, RunAll, Inv;
    var s0 := Start(slots, input);
    StartRests(slots, input);
    var keep, s1 := KeepNext(s0, j + 1);
    var drop, s2 := DropRest(s1);
    var read, s3 := ReadRest(s2);
    LeadsOn(s0, keep, s1, drop, s2);
    LeadsOn(s0, keep + drop, s2, read, s3);
    schedule := keep + drop + read;
    assert [] + input[..j + 1] == input[..j + 1];
  }

  lemma StartRests<T>(slots: seq<T>, input: seq<T>)
    requires slots != []
    ensures Resting(Start(slots, input))
  {}

  // ---------- the reader ----------

  /** What the reader is left with when it has caught up. */
  lemma DrainedReader(slots: seq<Bbo>, input: seq<Bbo>, schedule: seq<Action<Bbo>>)
    requires slots != [] && CanRun(Drop, Start(slots, input), schedule)
    ensures var s := RunAll(Drop, Start(slots, input), schedule);
      Drained(s) ==> |s.outcomes| == |input| && s.popped == s.pushed == Accepted(input, s.outcomes)
                     && RefusedWhenFull(s.outcomes, |slots|)
  {
    hide CanRun, RunAll, RefusedWhenFull;
    RingIsSafe(Drop, slots, input, schedule);
    StartRests(slots, input);
    NoneRefused(|slots|);
    RunRefuses(Start(slots, input), schedule);
  }

  lemma NoneRefused(size: nat)
    ensures RefusedWhenFull([], size)
  {}

  /** After every schedule that offers all messages of a run and reads all that got through, the last
      message read shows the best prices of the book. */
  ghost predicate ReaderIsNeverMisled(b: Book, ops: seq<Op>, slots: seq<Bbo>)
    requires slots != []
  {
    var start := Start(slots, Run(b, ops).published);
    forall schedule: seq<Action<Bbo>> :: CanRun(Drop, start, schedule) && Drained(RunAll(Drop, start, schedule)) ==>
      PricesAgree(LastPublished(RunAll(Drop, start, schedule).popped), Run(b, ops).book)
  }

  /** From the message on that fills the ring, every message of the run shows the same prices as the
      last one. */
  predicate SettledOnceFull(msgs: seq<Bbo>, size: nat) {
    forall j :: size - 2 <= j < |msgs| && j >= 0 ==> SamePrices(msgs[j], msgs[|msgs| - 1])
  }

  lemma LastIsTheBook(b: Book, ops: seq<Op>)
    requires PricesAgree(LastPublished([]), b)
    ensures PricesAgree(LastPublished(Run(b, ops).published), Run(b, ops).book)
  {
    hide Run, PricesAgree, LastPublished;
    FeedAgrees(b, [], ops);
    assert [] + Run(b, ops).published == Run(b, ops).published;
  }

  lemma SettledReader(b: Book, ops: seq<Op>, slots: seq<Bbo>, schedule: seq<Action<Bbo>>)
    requires PricesAgree(LastPublished([]), b) && |slots| >= 2
    requires CanRun(Drop, Start(slots, Run(b, ops).published), schedule)
    requires Drained(RunAll(Drop, Start(slots, Run(b, ops).published), schedule))
    requires SettledOnceFull(Run(b, ops).published, |slots|)
    ensures PricesAgree(LastPublished(RunAll(Drop, Start(slots, Run(b, ops).published), schedule).popped), Run(b, ops).book)
  {
    hide Run, CanRun, RunAll, RefusedWhenFull, Accepted;
    var msgs := Run(b, ops).published;
    var s := RunAll(Drop, Start(slots, msgs), schedule);
    DrainedReader(slots, msgs, schedule);
    LastIsTheBook(b, ops);
    if msgs == [] {
      NothingKept(s.outcomes);
    } else {
      var j := LastKept(msgs, s.outcomes, |slots|);
      assert SamePrices(msgs[j], msgs[|msgs| - 1]);
    }
  }

  lemma NothingKept(outcomes: seq<bool>)
    requires |outcomes| == 0
    ensures Accepted<Bbo>([], outcomes) == []
  {}

  /** Which runs can mislead a reader that catches up: the ring has room for `|slots| - 1` messages, and
      from the one that fills it on the run publishes other prices than its last. A run of at most
      `|slots| - 1` messages never does. */
  lemma ReaderIsNeverMisledIff(b: Book, ops: seq<Op>, slots: seq<Bbo>)
    requires PricesAgree(LastPublished([]), b) && |slots| >= 2
    ensures ReaderIsNeverMisled(b, ops, slots) <==> SettledOnceFull(Run(b, ops).published, |slots|)
    ensures |Run(b, ops).published| <= |slots| - 1 ==> ReaderIsNeverMisled(b, ops, slots)
  {
    hide Run, CanRun, RunAll;
    var msgs := Run(b, ops).published;
    LastIsTheBook(b, ops);
    if SettledOnceFull(msgs, |slots|) {
      forall schedule: seq<Action<Bbo>> |
        CanRun(Drop, Start(slots, msgs), schedule) && Drained(RunAll(Drop, Start(slots, msgs), schedule))
        ensures PricesAgree(LastPublished(RunAll(Drop, Start(slots, msgs), schedule).popped), Run(b, ops).book)
      {
        SettledReader(b, ops, slots, schedule);
      }
    } else {
      var j :| |slots| - 2 <= j < |msgs| && !SamePrices(msgs[j], msgs[|msgs| - 1]);
      var schedule := EndOn(slots, msgs, j);
      DrainedReader(slots, msgs, schedule);
      assert LastPublished(msgs[..j + 1]) == msgs[j];
    }
  }

  // ---------- such a run, for a ring of any size ----------

  /** `k` offers, each one unit better than the one before. */
  function Offers(id: OrderId, price: Price, k: nat): seq<Op>
    decreases k
  {
    if k == 0 then [] else [Submit(NewOrder(id, price, 1, SELL, false), 0)] + Offers(id + 1, price - 1, k - 1)
  }

  ghost predicate OffersAbove(b: Book, id: OrderId, price: Price) {
    b.bids == [] && (b.asks == [] || price < b.asks[0].price) && forall x: OrderId :: Live(b, x) ==> x < id
  }

  lemma OneOffer(b: Book, id: OrderId, price: Price)
    requires OffersAbove(b, id, price) && price > 0
    ensures var op := Submit(NewOrder(id, price, 1, SELL, false), 0); var r := Step(b, op);
      && Admissible(b, op) && OffersAbove(r.book, id + 1, price - 1)
      && |r.published| == 1 && r.published[0].bidPrice == 0 && r.published[0].askPrice == price
  {
    var o := NewOrder(id, price, 1, SELL, false);
    assert Consume(o, 1, b.bids) == Match(1, [], []);
    var b' := SubmittedBook(b, o);
    assert b' == Book([], [Entry(id, price, 1)] + b.asks);
    assert b'.asks[1..] == b.asks;
    forall x: OrderId | Live(b', x) ensures x < id + 1 {
      var i :| 0 <= i < |b'.asks| && b'.asks[i].id == x;
      if i > 0 { assert b.asks[i - 1].id == x && Live(b, x); }
    }
  }

  lemma {:induction false} OffersPublish(b: Book, id: OrderId, price: Price, k: nat)
    requires OffersAbove(b, id, price) && price >= k
    ensures var ops := Offers(id, price, k); var msgs := Run(b, ops).published;
      && AdmissibleRun(b, ops) && |msgs| == k
      && forall i :: 0 <= i < k ==> msgs[i].bidPrice == 0 && msgs[i].askPrice == price - i
    decreases k
  {
    hide Step, Admissible, OffersAbove;
    if k > 0 {
      var op := Submit(NewOrder(id, price, 1, SELL, false), 0);
      OneOffer(b, id, price);
      OffersPublish(Step(b, op).book, id + 1, price - 1, k - 1);
      assert Offers(id, price, k)[1..] == Offers(id + 1, price - 1, k - 1);
    }
  }

  /** Whatever the size of the ring, as many improving offers as it has slots can mislead the reader,
      and one fewer cannot. */
  lemma OffersCanMislead(slots: seq<Bbo>)
    requires |slots| >= 2
    ensures var n := |slots|;
      && AdmissibleRun(EMPTY_BOOK, Offers(1, n, n)) && !ReaderIsNeverMisled(EMPTY_BOOK, Offers(1, n, n), slots)
      && AdmissibleRun(EMPTY_BOOK, Offers(1, n, n - 1)) && ReaderIsNeverMisled(EMPTY_BOOK, Offers(1, n, n - 1), slots)
  {
    hide Run, ReaderIsNeverMisled, Offers, AdmissibleRun;
    var n := |slots|;
    OffersPublish(EMPTY_BOOK, 1, n, n);
    OffersPublish(EMPTY_BOOK, 1, n, n - 1);
    ReaderIsNeverMisledIff(EMPTY_BOOK, Offers(1, n, n), slots);
    ReaderIsNeverMisledIff(EMPTY_BOOK, Offers(1, n, n - 1), slots);
    var msgs := Run(EMPTY_BOOK, Offers(1, n, n)).published;
    assert !SamePrices(msgs[n - 2], msgs[n - 1]);
  }

  /** `SIZE` of the market-data ring. */
  const SIZE := 1024

  /** On the ring of the source, 1024 offers do. */
  lemma FeedRingCanMislead(slots: seq<Bbo>)
    requires |slots| == SIZE
    ensures !ReaderIsNeverMisled(EMPTY_BOOK, Offers(1, SIZE, SIZE), slots)
  {
    hide ReaderIsNeverMisled, Offers;
    OffersCanMislead(slots);
  }
}

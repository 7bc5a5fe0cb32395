/** The lock-free single-producer single-consumer ring, step by step.

    A push and a pop are taken apart into their memory steps, and a schedule is any interleaving of
    the steps of the two threads. Each thread reads its own index exactly; the index it loads from
    the other side may be stale, but never older than what it has already seen. A slot write is not
    atomic: until it is finished the slot may hold anything. */
module Ring {
  import opened Types

  /** What the caller of `push` does when the ring is full: the network thread spins until it
      succeeds, the matching thread drops the market-data message. */
  datatype Policy = Spin | Drop

  datatype ProducerAt = Idle | HasTail(tail: nat) | Writing | Written
  datatype ConsumerAt<T> = Waiting | HasHead(head: nat) | Reading | Took(item: T)

  /** `todo` are the items the producer has still to push, `outcomes` what became of the earlier
      ones. `pushed` and `popped` record the stores of `head` and `tail`; `tailSeen` and `headSeen`
      count how many of the other side's stores a thread has seen. */
  datatype State<T> = State(
    slots: seq<T>, head: nat, tail: nat,
    producer: ProducerAt, consumer: ConsumerAt<T>,
    todo: seq<T>, outcomes: seq<bool>,
    pushed: seq<T>, popped: seq<T>, tailSeen: nat, headSeen: nat)

  datatype Action<T> =
    | LoadTail(seen: nat)   // producer: tail.load(acquire)
    | CheckFull             // producer: next_head == current_tail
    | Tear(garbage: T)      // producer: the slot is being written
    | WriteSlot             // producer: buffer[current_head] = item
    | StoreHead             // producer: head.store(next_head, release)
    | LoadHead(seen: nat)   // consumer: head.load(acquire)
    | CheckEmpty            // consumer: current_head == current_tail
    | ReadSlot              // consumer: item = buffer[current_tail]
    | StoreTail             // consumer: tail.store(current_tail + 1, release)

  function Start<T>(slots: seq<T>, input: seq<T>): State<T> {
    State(slots, 0, 0, Idle, Waiting, input, [], [], [], 0, 0)
  }

  predicate Enabled<T>(s: State<T>, a: Action<T>) {
    match a
    case LoadTail(seen) => s.producer.Idle? && s.todo != [] && s.tailSeen <= seen <= |s.popped|
    case CheckFull => s.producer.HasTail?
    case Tear(_) => s.producer.Writing? && s.head < |s.slots|
    case WriteSlot => s.producer.Writing? && s.head < |s.slots| && s.todo != []
    case StoreHead => s.producer.Written? && s.todo != []
    case LoadHead(seen) => s.consumer.Waiting? && s.headSeen <= seen <= |s.pushed|
    case CheckEmpty => s.consumer.HasHead?
    case ReadSlot => s.consumer.Reading? && s.tail < |s.slots|
    case StoreTail => s.consumer.Took?
  }

  function Apply<T>(policy: Policy, s: State<T>, a: Action<T>): State<T>
    requires s.slots != [] && Enabled(s, a)
  {
    var n := |s.slots|;
    match a
    case LoadTail(seen) => s.(producer := HasTail(seen % n), tailSeen := seen)
    case CheckFull =>
      if (s.head + 1) % n != s.producer.tail then s.(producer := Writing)
      else if policy == Spin || s.todo == [] then s.(producer := Idle)
      else s.(producer := Idle, todo := s.todo[1..], outcomes := s.outcomes + [false])
    case Tear(g) => s.(slots := s.slots[s.head := g])
    case WriteSlot => s.(slots := s.slots[s.head := s.todo[0]], producer := Written)
    case StoreHead =>
      s.(head := (s.head + 1) % n, producer := Idle, pushed := s.pushed + [s.todo[0]],
         todo := s.todo[1..], outcomes := s.outcomes + [true])
    case LoadHead(seen) => s.(consumer := HasHead(seen % n), headSeen := seen)
    case CheckEmpty => s.(consumer := if s.consumer.head == s.tail then Waiting else Reading)
    case ReadSlot => s.(consumer := Took(s.slots[s.tail]))
    case StoreTail =>
      s.(tail := (s.tail + 1) % n, consumer := Waiting, popped := s.popped + [s.consumer.item])
  }

  // ---------- schedules ----------

  predicate CanRun<T>(policy: Policy, s: State<T>, schedule: seq<Action<T>>)
    requires s.slots != []
    decreases |schedule|
  {
    schedule == [] || (Enabled(s, schedule[0]) && CanRun(policy, Apply(policy, s, schedule[0]), schedule[1..]))
  }

  function RunAll<T>(policy: Policy, s: State<T>, schedule: seq<Action<T>>): State<T>
    requires s.slots != [] && CanRun(policy, s, schedule)
    decreases |schedule|
  {
    if schedule == [] then s else RunAll(policy, Apply(policy, s, schedule[0]), schedule[1..])
  }

  /** The items whose push succeeded, in order. */
  function Accepted<T>(input: seq<T>, outcomes: seq<bool>): seq<T>
    requires |outcomes| <= |input|
  {
    if outcomes == [] then []
    else (if outcomes[0] then [input[0]] else []) + Accepted(input[1..], outcomes[1..])
  }

  // ---------- the invariant ----------

  ghost predicate Indices<T>(s: State<T>) {
    var n := |s.slots|;
    && n > 0
    && s.head == |s.pushed| % n && s.tail == |s.popped| % n
    && s.tailSeen <= |s.popped| <= s.headSeen <= |s.pushed|
    && |s.pushed| - s.tailSeen < n
  }

  /** Everything between the two indices is in its slot, whole. */
  ghost predicate Stored<T>(s: State<T>)
    requires s.slots != []
  {
    forall k :: |s.popped| <= k < |s.pushed| ==> s.slots[k % |s.slots|] == s.pushed[k]
  }

  ghost predicate ProducerOk<T>(s: State<T>)
    requires s.slots != []
  {
    match s.producer
    case Idle => true
    case HasTail(t) => s.todo != [] && t == s.tailSeen % |s.slots|
    case Writing => s.todo != [] && |s.pushed| - s.tailSeen < |s.slots| - 1
    case Written =>
      s.todo != [] && |s.pushed| - s.tailSeen < |s.slots| - 1 && s.slots[|s.pushed| % |s.slots|] == s.todo[0]
  }

  ghost predicate ConsumerOk<T>(s: State<T>)
    requires s.slots != []
  {
    match s.consumer
    case Waiting => true
    case HasHead(h) => h == s.headSeen % |s.slots|
    case Reading => |s.popped| < s.headSeen
    case Took(x) => |s.popped| < s.headSeen && |s.popped| < |s.pushed| && x == s.pushed[|s.popped|]
  }

  ghost predicate Inv<T>(s: State<T>) {
    Indices(s) && Stored(s) && ProducerOk(s) && ConsumerOk(s) && s.popped <= s.pushed
  }

  // ---------- arithmetic of a ring ----------

  lemma {:induction false} ModStep(a: nat, n: nat)
    requires n > 0
    ensures (a % n + 1) % n == (a + 1) % n
    decreases a
  {
    if a >= n {
      ModStep(a - n, n);
      ModDown(a, n);
      ModDown(a + 1, n);
    } else if a + 1 == n {
      ModDown(n, n);
    }
  }

  lemma ModDown(a: nat, n: nat)
    requires n > 0 && a >= n
    ensures a % n == (a - n) % n
  {
    var q := a / n;
    assert a == q * n + a % n;
    assert a - n == (q - 1) * n + a % n;
    ModUnique(a - n, n, q - 1, a % n);
  }

  lemma AtLeastOneTurn(d: int, n: nat)
    requires n > 0
    ensures d >= 1 ==> d * n >= n
    ensures d <= -1 ==> d * n <= 0 - n
  {}

  lemma Turns(q: int, q': int, n: nat)
    ensures (q - q') * n == q * n - q' * n
  {}

  lemma ModUnique(a: int, n: nat, q: int, r: int)
    requires n > 0 && a == q * n + r && 0 <= r < n
    ensures a % n == r
  {
    var q' := a / n;
    assert a == q' * n + a % n;
    Turns(q, q', n);
    AtLeastOneTurn(q - q', n);
  }

  /** Less than one turn apart, two positions share a slot only if they are equal. */
  lemma ModInjective(a: nat, b: nat, n: nat)
    requires n > 0 && a <= b < a + n
    ensures a % n == b % n <==> a == b
  {
    var p, q := a / n, b / n;
    assert a == p * n + a % n;
    assert b == q * n + b % n;
    Turns(q, p, n);
    AtLeastOneTurn(q - p, n);
  }

  // ---------- every step keeps it ----------

  lemma CheckFullKeepsInv<T>(policy: Policy, s: State<T>)
    requires Inv(s) && s.producer.HasTail?
    ensures Inv(Apply(policy, s, CheckFull))
    ensures (s.head + 1) % |s.slots| == s.producer.tail <==> |s.pushed| - s.tailSeen == |s.slots| - 1
  {
    var n := |s.slots|;
    ModStep(|s.pushed|, n);
    if |s.pushed| + 1 - s.tailSeen < n {
      ModInjective(s.tailSeen, |s.pushed| + 1, n);
    } else {
      ModDown(|s.pushed| + 1, n);
    }
  }

  lemma SlotWriteKeepsStored<T>(s: State<T>, x: T)
    requires Inv(s) && s.producer.Writing?
    ensures Stored(s.(slots := s.slots[s.head := x]))
  {
    forall k | |s.popped| <= k < |s.pushed| ensures k % |s.slots| != s.head {
      ModInjective(k, |s.pushed|, |s.slots|);
    }
  }

  lemma StoreHeadKeepsInv<T>(policy: Policy, s: State<T>)
    requires Inv(s) && s.producer.Written?
    ensures Inv(Apply(policy, s, StoreHead))
  {
    ModStep(|s.pushed|, |s.slots|);
  }

  lemma CheckEmptyKeepsInv<T>(policy: Policy, s: State<T>)
    requires Inv(s) && s.consumer.HasHead?
    ensures Inv(Apply(policy, s, CheckEmpty))
    ensures s.consumer.head == s.tail <==> s.headSeen == |s.popped|
  {
    ModInjective(|s.popped|, s.headSeen, |s.slots|);
  }

  lemma StoreTailKeepsInv<T>(policy: Policy, s: State<T>)
    requires Inv(s) && s.consumer.Took?
    ensures Inv(Apply(policy, s, StoreTail))
  {
    ModStep(|s.popped|, |s.slots|);
    var s' := Apply(policy, s, StoreTail);
    assert s'.popped == s.pushed[..|s.popped| + 1];
  }

  lemma StepKeepsInv<T>(policy: Policy, s: State<T>, a: Action<T>)
    requires Inv(s) && Enabled(s, a)
    ensures Inv(Apply(policy, s, a))
  {
    match a
    case LoadTail(_) =>
    case CheckFull => CheckFullKeepsInv(policy, s);
    case Tear(g) => SlotWriteKeepsStored(s, g);
    case WriteSlot => SlotWriteKeepsStored(s, s.todo[0]);
    case StoreHead => StoreHeadKeepsInv(policy, s);
    case LoadHead(_) =>
    case CheckEmpty => CheckEmptyKeepsInv(policy, s);
    case ReadSlot =>
    case StoreTail => StoreTailKeepsInv(policy, s);
  }

  /** The input is accounted for, item by item. */
  ghost predicate Accounted<T>(policy: Policy, s: State<T>, input: seq<T>) {
    && |s.outcomes| <= |input|
    && s.todo == input[|s.outcomes|..]
    && s.pushed == Accepted(input, s.outcomes)
    && (policy == Spin ==> forall i :: 0 <= i < |s.outcomes| ==> s.outcomes[i])
  }

  lemma {:induction false} AcceptedOneMore<T>(input: seq<T>, outcomes: seq<bool>, ok: bool)
    requires |outcomes| < |input|
    ensures Accepted(input, outcomes + [ok]) == Accepted(input, outcomes) + if ok then [input[|outcomes|]] else []
  {
    if outcomes == [] {
      assert (outcomes + [ok])[1..] == [];
    } else {
      assert (outcomes + [ok])[1..] == outcomes[1..] + [ok];
      AcceptedOneMore(input[1..], outcomes[1..], ok);
    }
  }

  lemma {:induction false} AllAccepted<T>(input: seq<T>, outcomes: seq<bool>)
    requires |outcomes| <= |input| && forall i :: 0 <= i < |outcomes| ==> outcomes[i]
    ensures Accepted(input, outcomes) == input[..|outcomes|]
  {
    if outcomes != [] {
      AllAccepted(input[1..], outcomes[1..]);
      assert input[..|outcomes|] == [input[0]] + input[1..][..|outcomes| - 1];
    }
  }

  lemma StepKeepsAccount<T>(policy: Policy, s: State<T>, a: Action<T>, input: seq<T>)
    requires Inv(s) && Accounted(policy, s, input) && Enabled(s, a)
    ensures Accounted(policy, Apply(policy, s, a), input)
  {
    if s.todo != [] {
      AcceptedOneMore(input, s.outcomes, true);
      AcceptedOneMore(input, s.outcomes, false);
    }
  }

  lemma {:induction false} RunKeepsInv<T>(policy: Policy, s: State<T>, schedule: seq<Action<T>>, input: seq<T>)
    requires s.slots != [] && Inv(s) && Accounted(policy, s, input) && CanRun(policy, s, schedule)
    ensures Inv(RunAll(policy, s, schedule)) && Accounted(policy, RunAll(policy, s, schedule), input)
    decreases |schedule|
  {
    if schedule != [] {
      StepKeepsInv(policy, s, schedule[0]);
      StepKeepsAccount(policy, s, schedule[0], input);
      RunKeepsInv(policy, Apply(policy, s, schedule[0]), schedule[1..], input);
    }
  }

  /** Safety in every interleaving: what was popped is a prefix, in order, of what was accepted; at
      most Size - 1 items wait; the slot being written is never the slot being read; and when the
      caller spins on a full ring nothing is lost or duplicated: popped, waiting and still-to-push
      together are exactly the input. */
  lemma RingIsSafe<T>(policy: Policy, slots: seq<T>, input: seq<T>, schedule: seq<Action<T>>)
    requires slots != [] && CanRun(policy, Start(slots, input), schedule)
    ensures var s := RunAll(policy, Start(slots, input), schedule);
      && |s.outcomes| <= |input|
      && s.popped <= s.pushed == Accepted(input, s.outcomes) && s.todo == input[|s.outcomes|..]
      && |s.pushed| - |s.popped| <= |slots| - 1
      && (s.producer.Writing? && s.consumer.Reading? ==> s.head != s.tail)
      && (policy == Spin ==> s.popped + s.pushed[|s.popped|..] + s.todo == input)
  {
    var s0 := Start(slots, input);
    assert Inv(s0) && Accounted(policy, s0, input);
    RunKeepsInv(policy, s0, schedule, input);
    var s := RunAll(policy, s0, schedule);
    SizeKept(policy, s0, schedule);
    if s.producer.Writing? && s.consumer.Reading? {
      ModInjective(|s.popped|, |s.pushed|, |s.slots|);
    }
    if policy == Spin {
      AllAccepted(input, s.outcomes);
      assert s.popped + s.pushed[|s.popped|..] == s.pushed;
    }
  }

  lemma {:induction false} SizeKept<T>(policy: Policy, s: State<T>, schedule: seq<Action<T>>)
    requires s.slots != [] && CanRun(policy, s, schedule)
    ensures |RunAll(policy, s, schedule).slots| == |s.slots|
    decreases |schedule|
  {
    if schedule != [] {
      SizeKept(policy, Apply(policy, s, schedule[0]), schedule[1..]);
    }
  }

  // ---------- the two methods, one call at a time ----------

  /** The ring as an object. `push` and `pop` take the index they load from the other side as a
      parameter: any value it has had since the caller last looked. */
  class RingBuffer<T(0)> {
    const buffer: array<T>
    var head: nat
    var tail: nat
    ghost var pushed: seq<T>
    ghost var popped: seq<T>
    ghost var tailSeen: nat
    ghost var headSeen: nat

    /** The object as a state of the step machine between two calls. */
    ghost function Snapshot(): State<T>
      reads this, buffer
    {
      State(buffer[..], head, tail, Idle, Waiting, [], [], pushed, popped, tailSeen, headSeen)
    }

    ghost predicate Valid()
      reads this, buffer
    {
      buffer.Length > 0 && Inv(Snapshot())
    }

    constructor (size: nat)
      requires size > 0
      ensures Valid() && fresh(buffer) && buffer.Length == size && pushed == [] && popped == []
    {
      buffer := new T[size];
      head, tail := 0, 0;
      pushed, popped, tailSeen, headSeen := [], [], 0, 0;
    }

    /** `push` is the four producer steps; it fails exactly when the ring looks full to a producer
        that has seen `seen` pops. */
    method Push(item: T, currentTail: nat, ghost seen: nat) returns (ok: bool)
      requires Valid() && tailSeen <= seen <= |popped| && currentTail == seen % buffer.Length
      modifies this`head, this`pushed, this`tailSeen, buffer
      ensures Valid() && tailSeen == seen
      ensures ok <==> |old(pushed)| - seen < buffer.Length - 1
      ensures pushed == old(pushed) + if ok then [item] else []
      ensures Snapshot() == AfterPush(old(Snapshot()), item, seen)
    {
      hide Inv, Indices;
      PushSteps(Spin, Snapshot(), item, seen);
      tailSeen := seen;
      var nextHead := (head + 1) % buffer.Length;
      if nextHead == currentTail {
        return false;
      }
      buffer[head] := item;
      head := nextHead;
      pushed := pushed + [item];
      return true;
    }

    /** `pop` is the four consumer steps; it fails exactly when the ring looks empty to a consumer
        that has seen `seen` pushes, and otherwise returns the oldest waiting item. */
    method Pop(currentHead: nat, ghost seen: nat) returns (item: Option<T>)
      requires Valid() && headSeen <= seen <= |pushed| && currentHead == seen % buffer.Length
      modifies this`tail, this`popped, this`headSeen
      ensures Valid() && headSeen == seen
      ensures item.None? <==> seen == |old(popped)|
      ensures item.Some? ==> item.value == pushed[|old(popped)|]
      ensures popped == old(popped) + if item.Some? then [item.value] else []
    {
      hide Stored, ProducerOk;
      ghost var s0 := Snapshot();
      ghost var s1 := Apply(Spin, s0, LoadHead(seen));
      StepKeepsInv(Spin, s0, LoadHead(seen));
      CheckEmptyKeepsInv(Spin, s1);
      headSeen := seen;
      if currentHead == tail {
        return None;
      }
      ghost var s2 := Apply(Spin, s1, CheckEmpty);
      ghost var s3 := Apply(Spin, s2, ReadSlot);
      StepKeepsInv(Spin, s2, ReadSlot);
      StepKeepsInv(Spin, s3, StoreTail);
      item := Some(buffer[tail]);
      tail := (tail + 1) % buffer.Length;
      popped := popped + [item.value];
      assert Snapshot() == Apply(Spin, s3, StoreTail);
    }
  }

  /** What a push that has seen `seen` pops does to a ring between calls. */
  function AfterPush<T>(s: State<T>, item: T, seen: nat): State<T>
    requires s.head < |s.slots|
  {
    if (s.head + 1) % |s.slots| == seen % |s.slots| then s.(tailSeen := seen)
    else s.(slots := s.slots[s.head := item], head := (s.head + 1) % |s.slots|, tailSeen := seen,
            pushed := s.pushed + [item])
  }

  /** A push is its producer steps, run together, and it is refused exactly when it looks full. A caller
      that spins still has the item then, one that drops has not. */
  lemma PushSteps<T>(policy: Policy, s: State<T>, item: T, seen: nat)
    requires Inv(s) && s.producer.Idle? && s.todo == [] && s.outcomes == []
    requires s.tailSeen <= seen <= |s.popped|
    ensures s.head < |s.slots| && Inv(AfterPush(s, item, seen))
    ensures var n := |s.slots|; var full := (s.head + 1) % n == seen % n; var s0 := s.(todo := [item]);
      var schedule := [LoadTail(seen), CheckFull] + if full then [] else [WriteSlot, StoreHead];
      && |s.pushed| - seen <= n - 1 && (full <==> |s.pushed| - seen == n - 1)
      && CanRun(policy, s0, schedule)
      && RunAll(policy, s0, schedule)
         == AfterPush(s, item, seen).(todo := if full && policy == Spin then [item] else [],
                                      outcomes := if !full then [true] else if policy == Drop then [false] else [])
  {
    hide RunAll, CanRun, Inv, Apply, Enabled;
    var s0 := s.(todo := [item]);
    HasSlots(s);
    LoadAndCheck(policy, s, item, seen);
    var s2 := Apply(policy, Apply(policy, s0, LoadTail(seen)), CheckFull);
    if (s.head + 1) % |s.slots| == seen % |s.slots| {
      RunNone(policy, s2);
      RunTwo(policy, s0, LoadTail(seen), CheckFull, []);
    } else {
      var write: seq<Action<T>> := [WriteSlot, StoreHead];
      WriteAndStore(policy, s2, item);
      var s4 := Apply(policy, Apply(policy, s2, WriteSlot), StoreHead);
      Idling(s4, [], []);
      RunNone(policy, s4);
      RunTwo(policy, s2, WriteSlot, StoreHead, []);
      assert write + [] == write;
      RunTwo(policy, s0, LoadTail(seen), CheckFull, write);
    }
  }

  lemma HasSlots<T>(s: State<T>)
    requires Inv(s)
    ensures s.slots != []
  {}

  /** An idle producer's plans are no part of the invariant. */
  lemma Idling<T>(s: State<T>, todo: seq<T>, outcomes: seq<bool>)
    requires Inv(s) && s.producer.Idle?
    ensures Inv(s.(todo := todo, outcomes := outcomes))
  {}

  lemma LoadAndCheck<T>(policy: Policy, s: State<T>, item: T, seen: nat)
    requires Inv(s) && s.producer.Idle? && s.todo == [] && s.outcomes == []
    requires s.tailSeen <= seen <= |s.popped|
    ensures var n := |s.slots|; var full := (s.head + 1) % n == seen % n; var s0 := s.(todo := [item]);
      && |s.pushed| - seen <= n - 1 && (full <==> |s.pushed| - seen == n - 1)
      && s.head < n && Enabled(s0, LoadTail(seen)) && Apply(policy, s0, LoadTail(seen)).slots != []
      && Enabled(Apply(policy, s0, LoadTail(seen)), CheckFull)
      && var s2 := Apply(policy, Apply(policy, s0, LoadTail(seen)), CheckFull);
         Inv(s2) && s2 == if !full then s0.(tailSeen := seen, producer := Writing)
                          else if policy == Spin then s0.(tailSeen := seen)
                          else s0.(tailSeen := seen, todo := [], outcomes := [false])
    ensures Inv(s.(tailSeen := seen))
  {
    var s0 := s.(todo := [item]);
    assert Inv(s0);
    var s1 := Apply(policy, s0, LoadTail(seen));
    StepKeepsInv(policy, s0, LoadTail(seen));
    CheckFullKeepsInv(policy, s1);
    assert [item][1..] == [] && [] + [false] == [false];
  }

  lemma WriteAndStore<T>(policy: Policy, s: State<T>, item: T)
    requires Inv(s) && s.producer.Writing? && s.todo == [item] && s.outcomes == [] && s.head < |s.slots|
    ensures Enabled(s, WriteSlot) && Apply(policy, s, WriteSlot).slots != []
    ensures Enabled(Apply(policy, s, WriteSlot), StoreHead)
    ensures var s' := Apply(policy, Apply(policy, s, WriteSlot), StoreHead);
      Inv(s') && s' == s.(slots := s.slots[s.head := item], head := (s.head + 1) % |s.slots|, producer := Idle,
                          pushed := s.pushed + [item], todo := [], outcomes := [true])
  {
    StepKeepsInv(policy, s, WriteSlot);
    StepKeepsInv(policy, Apply(policy, s, WriteSlot), StoreHead);
    assert [item][1..] == [] && [] + [true] == [true];
  }

  lemma RunNone<T>(policy: Policy, s: State<T>)
    requires s.slots != []
    ensures CanRun(policy, s, []) && RunAll(policy, s, []) == s
  {}

  lemma RunTwo<T>(policy: Policy, s: State<T>, a: Action<T>, b: Action<T>, rest: seq<Action<T>>)
    requires s.slots != [] && Enabled(s, a)
    requires Enabled(Apply(policy, s, a), b)
    requires CanRun(policy, Apply(policy, Apply(policy, s, a), b), rest)
    ensures CanRun(policy, s, [a, b] + rest)
    ensures RunAll(policy, s, [a, b] + rest) == RunAll(policy, Apply(policy, Apply(policy, s, a), b), rest)
  {
    var schedule := [a, b] + rest;
    assert schedule[1..][0] == b && schedule[1..][1..] == rest;
  }
}

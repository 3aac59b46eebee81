/** The ring between one producer thread and one consumer thread: slots are reserved, completed and popped in turn. */
module AsyncQueue {

  /** How far a thread is inside one of its operations, with what it has read so far. */
  datatype Producer = Idle | TailRead(seen: nat) | Bumped(slot: nat) | Completing(next: nat)
  datatype Consumer = Waiting | HeadRead(seen: nat) | Popping(next: nat)

  datatype Ring<T> = Ring(slots: seq<T>, reserved: nat, completed: nat, tail: nat,
                          producer: Producer, consumer: Consumer)

  /** One read or write of a shared index; `Fill` writes a slot that is reserved and not completed. */
  datatype Action<T> =
    | ReadTail | Bump | Wrap | Fill(slot: nat, value: T) | BeginComplete | EndComplete
    | ReadHead | BeginPop | EndPop

  /** The three size functions: how far `to` is ahead of `from` around the ring. */
  function Ahead(to: int, from: int, n: nat): int {
    var tmp := to - from;
    if tmp < 0 then tmp + n else tmp
  }

  function Empty<T>(slots: seq<T>): Ring<T> {
    Ring(slots, 0, 0, 0, Idle, Waiting)
  }

  /** The next state; an action that the thread is not about to do changes nothing. */
  function Step<T>(s: Ring<T>, a: Action<T>): (r: Ring<T>)
    requires |s.slots| > 0
    ensures |r.slots| == |s.slots|
  {
    var n := |s.slots|;
    match a
    case ReadTail => if s.producer.Idle? then s.(producer := TailRead(s.tail)) else s
    case Bump =>
      if !s.producer.TailRead? then s
      else if Ahead(s.reserved, s.producer.seen, n) + 3 > n then s.(producer := Idle)
      else s.(reserved := s.reserved + 1, producer := Bumped(s.reserved))
    case Wrap => if s.producer.Bumped? then s.(reserved := s.reserved % n, producer := Idle) else s
    case Fill(slot, v) =>
      if s.producer.Idle? && slot < n && Ahead(slot, s.completed, n) < Ahead(s.reserved, s.completed, n)
      then s.(slots := s.slots[slot := v]) else s
    case BeginComplete =>
      if s.producer.Idle? && Ahead(s.reserved, s.completed, n) > 0
      then s.(producer := Completing((s.completed + 1) % n)) else s
    case EndComplete =>
      if s.producer.Completing? then s.(completed := s.producer.next, producer := Idle) else s
    case ReadHead => if s.consumer.Waiting? then s.(consumer := HeadRead(s.completed)) else s
    case BeginPop =>
      if !s.consumer.HeadRead? then s
      else if Ahead(s.consumer.seen, s.tail, n) < 1 then s.(consumer := Waiting)
      else s.(consumer := Popping((s.tail + 1) % n))
    case EndPop => if s.consumer.Popping? then s.(tail := s.consumer.next, consumer := Waiting) else s
  }

  function Run<T>(s: Ring<T>, acts: seq<Action<T>>): (r: Ring<T>)
    requires |s.slots| > 0
    ensures |r.slots| == |s.slots|
  {
    if acts == [] then s else Step(Run(s, acts[..|acts| - 1]), acts[|acts| - 1])
  }

  /** What the slot holds that a step completes. */
  function Accepted<T>(s: Ring<T>, a: Action<T>): seq<T> {
    if a.EndComplete? && s.producer.Completing? && s.completed < |s.slots| then [s.slots[s.completed]] else []
  }

  /** What `front` shows of the slot that a step pops. */
  function Delivered<T>(s: Ring<T>, a: Action<T>): seq<T> {
    if a.EndPop? && s.consumer.Popping? && s.tail < |s.slots| then [s.slots[s.tail]] else []
  }

  function Inputs<T>(s: Ring<T>, acts: seq<Action<T>>): seq<T>
    requires |s.slots| > 0
  {
    if acts == [] then [] else
      Inputs(s, acts[..|acts| - 1]) + Accepted(Run(s, acts[..|acts| - 1]), acts[|acts| - 1])
  }

  function Outputs<T>(s: Ring<T>, acts: seq<Action<T>>): seq<T>
    requires |s.slots| > 0
  {
    if acts == [] then [] else
      Outputs(s, acts[..|acts| - 1]) + Delivered(Run(s, acts[..|acts| - 1]), acts[|acts| - 1])
  }

  /** How many slots a run reserves. */
  function Reservations<T>(s: Ring<T>, acts: seq<Action<T>>): nat
    requires |s.slots| > 0
  {
    if acts == [] then 0
    else
      var before := Run(s, acts[..|acts| - 1]);
      Reservations(s, acts[..|acts| - 1]) + if acts[|acts| - 1].Wrap? && before.producer.Bumped? then 1 else 0
  }

  // ---- Arithmetic around the ring

  lemma Multiples(q: int, n: nat)
    ensures (2 <= q ==> 2 * n <= q * n) && (1 <= q ==> n <= q * n) && (q <= -1 ==> q * n <= 0 - n)
  {
  }

  lemma Lap(a: nat, b: nat, n: nat)
    requires n > 0 && b <= a < b + n
    ensures a % n - b % n == a - b || a % n - b % n == a - b - n
  {
    assert a == a / n * n + a % n && b == b / n * n + b % n;
    var q := a / n - b / n;
    assert q * n == a - b - a % n + b % n;
    Multiples(q, n);
  }

  /** Positions less than a lap apart keep their distance around the ring. */
  lemma AheadIsDifference(a: nat, b: nat, n: nat)
    requires n > 0 && b <= a < b + n
    ensures Ahead(a % n, b % n, n) == a - b
  {
    Lap(a, b, n);
  }

  lemma NextPosition(a: nat, n: nat)
    requires n > 0
    ensures (a % n + 1) % n == (a + 1) % n
  {
    if a % n + 1 < n {
      assert a + 1 == a / n * n + (a % n + 1);
      Remainder(a / n, a % n + 1, n);
      Remainder(0, a % n + 1, n);
    } else {
      assert a + 1 == (a / n + 1) * n + 0;
      Remainder(a / n + 1, 0, n);
      Remainder(1, 0, n);
    }
  }

  lemma Remainder(q: nat, r: nat, n: nat)
    requires r < n
    ensures (q * n + r) % n == r
  {
    var x := q * n + r;
    assert x == x / n * n + x % n;
    var d := x / n - q;
    assert d * n == r - x % n;
    Multiples(d, n);
  }

  // ---- Counting from the beginning

  /** Everything ever reserved, how much of it is completed and popped, and the counts last read across threads. */
  datatype History<T> = History(log: seq<T>, completed: nat, popped: nat, tailSeen: nat, headSeen: nat)

  function Remember<T>(s: Ring<T>, h: History<T>, a: Action<T>): History<T>
    requires |s.slots| > 0
  {
    var n := |s.slots|;
    match a
    case ReadTail => if s.producer.Idle? then h.(tailSeen := h.popped) else h
    case Wrap =>
      if s.producer.Bumped? && s.producer.slot < n then h.(log := h.log + [s.slots[s.producer.slot]]) else h
    case Fill(slot, v) =>
      var k := h.completed + Ahead(slot, s.completed, n);
      if s.producer.Idle? && slot < n && Ahead(slot, s.completed, n) < Ahead(s.reserved, s.completed, n)
         && 0 <= k < |h.log| then h.(log := h.log[k := v]) else h
    case EndComplete => if s.producer.Completing? then h.(completed := h.completed + 1) else h
    case ReadHead => if s.consumer.Waiting? then h.(headSeen := h.completed) else h
    case EndPop => if s.consumer.Popping? then h.(popped := h.popped + 1) else h
    case _ => h
  }

  /** At most `n - 2` slots are reserved and not popped. */
  predicate Fits(reserved: nat, popped: nat, n: nat) {
    popped <= reserved && (reserved == popped || reserved + 2 <= popped + n)
  }

  ghost predicate Inv<T>(s: Ring<T>, h: History<T>) {
    var n := |s.slots|;
    && n > 0 && h.popped <= h.completed <= |h.log| && Fits(|h.log|, h.popped, n)
    && s.tail == h.popped % n && s.completed == h.completed % n
    && ProducerOk(s, h) && ConsumerOk(s, h)
    && forall i :: h.popped <= i < |h.log| ==> h.log[i] == s.slots[i % n]
  }

  ghost predicate ProducerOk<T>(s: Ring<T>, h: History<T>)
    requires |s.slots| > 0
  {
    var n := |s.slots|;
    match s.producer
    case Idle => s.reserved == |h.log| % n
    case TailRead(seen) =>
      s.reserved == |h.log| % n && seen == h.tailSeen % n && h.tailSeen <= h.popped && Fits(|h.log|, h.tailSeen, n)
    case Bumped(slot) => slot == |h.log| % n && s.reserved == slot + 1 && |h.log| + 3 <= h.popped + n
    case Completing(next) => s.reserved == |h.log| % n && h.completed < |h.log| && next == (h.completed + 1) % n
  }

  ghost predicate ConsumerOk<T>(s: Ring<T>, h: History<T>)
    requires |s.slots| > 0
  {
    var n := |s.slots|;
    match s.consumer
    case Waiting => true
    case HeadRead(seen) => seen == h.headSeen % n && h.popped <= h.headSeen <= h.completed
    case Popping(next) => next == (h.popped + 1) % n && h.popped < h.completed
  }

  lemma InvAtStart<T>(slots: seq<T>)
    requires |slots| > 0
    ensures Inv(Empty(slots), History([], 0, 0, 0, 0))
  {
  }

  lemma FillKeeps<T>(s: Ring<T>, h: History<T>, slot: nat, v: T)
    requires Inv(s, h)
    ensures Inv(Step(s, Fill(slot, v)), Remember(s, h, Fill(slot, v)))
  {
    var n := |s.slots|;
    if s.producer.Idle? && slot < n && Ahead(slot, s.completed, n) < Ahead(s.reserved, s.completed, n) {
      AheadIsDifference(|h.log|, h.completed, n);
      var k := h.completed + Ahead(slot, s.completed, n);
      SlotOf(slot, h.completed, n);
      forall i | h.popped <= i < |h.log|
        ensures h.log[k := v][i] == s.slots[slot := v][i % n]
      {
        if i != k {
          SlotsAreApart(i, k, n);
        }
      }
    }
  }

  /** A slot ahead of a position is that of the position as far ahead. */
  lemma SlotOf(slot: nat, c: nat, n: nat)
    requires slot < n
    ensures 0 <= Ahead(slot, c % n, n) < n && (c + Ahead(slot, c % n, n)) % n == slot
  {
    var d := slot - c % n;
    assert c == c / n * n + c % n;
    if d >= 0 {
      assert c + d == c / n * n + slot;
      Remainder(c / n, slot, n);
    } else {
      assert c + d + n == (c / n + 1) * n + slot;
      Remainder(c / n + 1, slot, n);
    }
  }

  lemma SlotsAreApart(i: nat, j: nat, n: nat)
    requires n > 0 && i != j && i < j + n && j < i + n
    ensures i % n != j % n
  {
    if i < j {
      Lap(j, i, n);
    } else {
      Lap(i, j, n);
    }
  }

  lemma ReserveKeeps<T>(s: Ring<T>, h: History<T>, a: Action<T>)
    requires Inv(s, h) && (a.ReadTail? || a.Bump? || a.Wrap?)
    ensures Inv(Step(s, a), Remember(s, h, a))
  {
    var n := |s.slots|;
    if a.Bump? && s.producer.TailRead? {
      AheadIsDifference(|h.log|, h.tailSeen, n);
    }
    if a.Wrap? && s.producer.Bumped? {
      NextPosition(|h.log|, n);
    }
  }

  lemma CompleteKeeps<T>(s: Ring<T>, h: History<T>, a: Action<T>)
    requires Inv(s, h) && (a.BeginComplete? || a.EndComplete?)
    ensures Inv(Step(s, a), Remember(s, h, a))
  {
    var n := |s.slots|;
    if a.BeginComplete? && s.producer.Idle? {
      AheadIsDifference(|h.log|, h.completed, n);
      NextPosition(h.completed, n);
    }
  }

  lemma BeginPopKeeps<T>(s: Ring<T>, h: History<T>)
    requires Inv(s, h)
    ensures Inv(Step(s, BeginPop), Remember(s, h, BeginPop))
  {
    var n := |s.slots|;
    if s.consumer.HeadRead? {
      AheadIsDifference(h.headSeen, h.popped, n);
      NextPosition(h.popped, n);
    }
  }

  lemma EndPopKeeps<T>(s: Ring<T>, h: History<T>)
    requires Inv(s, h)
    ensures Inv(Step(s, EndPop), Remember(s, h, EndPop))
  {
  }

  lemma ConsumeKeeps<T>(s: Ring<T>, h: History<T>, a: Action<T>)
    requires Inv(s, h) && (a.ReadHead? || a.BeginPop? || a.EndPop?)
    ensures Inv(Step(s, a), Remember(s, h, a))
  {
    match a
    case BeginPop => BeginPopKeeps(s, h);
    case EndPop => EndPopKeeps(s, h);
    case _ =>
  }

  /** Every step of either thread keeps the invariant. */
  lemma StepKeeps<T>(s: Ring<T>, h: History<T>, a: Action<T>)
    requires Inv(s, h)
    ensures Inv(Step(s, a), Remember(s, h, a))
  {
    match a
    case ReadTail => ReserveKeeps(s, h, a);
    case Bump => ReserveKeeps(s, h, a);
    case Wrap => ReserveKeeps(s, h, a);
    case Fill(slot, v) => FillKeeps(s, h, slot, v);
    case BeginComplete => CompleteKeeps(s, h, a);
    case EndComplete => CompleteKeeps(s, h, a);
    case _ => ConsumeKeeps(s, h, a);
  }

  // ---- The queue it refines

  /** Items popped, ready to pop, and reserved but not completed, each oldest first. */
  datatype Fifo<T> = Fifo(out: seq<T>, ready: seq<T>, reserved: seq<T>)

  function View<T>(h: History<T>): Fifo<T>
    requires h.popped <= h.completed <= |h.log|
  {
    Fifo(h.log[..h.popped], h.log[h.popped..h.completed], h.log[h.completed..])
  }

  function Refilled<T>(q: Fifo<T>, k: nat, v: T): Fifo<T> {
    if k < |q.reserved| then q.(reserved := q.reserved[k := v]) else q
  }

  ghost predicate FifoNext<T(!new)>(q: Fifo<T>, r: Fifo<T>) {
    || r == q
    || (exists v :: r == q.(reserved := q.reserved + [v]))
    || (exists k, v :: r == Refilled(q, k, v))
    || (q.reserved != [] && r == q.(ready := q.ready + [q.reserved[0]], reserved := q.reserved[1..]))
    || (q.ready != [] && r == q.(out := q.out + [q.ready[0]], ready := q.ready[1..]))
  }

  /** Every step of either thread is one step of the queue, or none. */
  lemma StepRefines<T(!new)>(s: Ring<T>, h: History<T>, a: Action<T>)
    requires Inv(s, h)
    ensures Inv(Step(s, a), Remember(s, h, a))
    ensures FifoNext(View(h), View(Remember(s, h, a)))
    ensures View(Remember(s, h, a)).out == View(h).out + Delivered(s, a)
  {
    StepKeeps(s, h, a);
    if a.Wrap? || a.Fill? {
      ReserveRefines(s, h, a);
    } else {
      TakeRefines(s, h, a);
    }
  }

  lemma ReserveRefines<T(!new)>(s: Ring<T>, h: History<T>, a: Action<T>)
    requires Inv(s, h) && Inv(Step(s, a), Remember(s, h, a)) && (a.Wrap? || a.Fill?)
    ensures FifoNext(View(h), View(Remember(s, h, a))) && View(Remember(s, h, a)).out == View(h).out
  {
    var q, r := View(h), View(Remember(s, h, a));
    if Remember(s, h, a) == h {
    } else if a.Wrap? {
      assert r == q.(reserved := q.reserved + [s.slots[s.producer.slot]]);
    } else {
      AheadIsDifference(|h.log|, h.completed, |s.slots|);
      SlotOf(a.slot, h.completed, |s.slots|);
      var k := Ahead(a.slot, s.completed, |s.slots|);
      assert r == Refilled(q, k, a.value);
    }
  }

  lemma TakeRefines<T(!new)>(s: Ring<T>, h: History<T>, a: Action<T>)
    requires Inv(s, h) && Inv(Step(s, a), Remember(s, h, a)) && !a.Wrap? && !a.Fill?
    ensures FifoNext(View(h), View(Remember(s, h, a))) && View(Remember(s, h, a)).out == View(h).out + Delivered(s, a)
  {
    var q, r := View(h), View(Remember(s, h, a));
    if a.EndComplete? && s.producer.Completing? {
      assert r == q.(ready := q.ready + [q.reserved[0]], reserved := q.reserved[1..]);
    } else if a.EndPop? && s.consumer.Popping? {
      assert r == q.(out := q.out + [q.ready[0]], ready := q.ready[1..]);
    }
  }

  function RememberAll<T>(s: Ring<T>, acts: seq<Action<T>>): History<T>
    requires |s.slots| > 0
  {
    if acts == [] then History([], 0, 0, 0, 0)
    else Remember(Run(s, acts[..|acts| - 1]), RememberAll(s, acts[..|acts| - 1]), acts[|acts| - 1])
  }

  /** In every interleaving, what is accepted and delivered is what the counts say. */
  lemma {:induction false} RunKeeps<T(!new)>(slots: seq<T>, acts: seq<Action<T>>)
    requires |slots| > 0
    ensures var s, h := Run(Empty(slots), acts), RememberAll(Empty(slots), acts);
      && Inv(s, h)
      && Inputs(Empty(slots), acts) == h.log[..h.completed] && Outputs(Empty(slots), acts) == h.log[..h.popped]
  {
    if acts == [] {
      InvAtStart(slots);
    } else {
      var before, a := acts[..|acts| - 1], acts[|acts| - 1];
      RunKeeps(slots, before);
      var s, h := Run(Empty(slots), before), RememberAll(Empty(slots), before);
      StepRefines(s, h, a);
      assert View(h).out == h.log[..h.popped];
      CompletedStays(s, h, a);
    }
  }

  lemma {:induction false} ReservationsAreLogged<T(!new)>(slots: seq<T>, acts: seq<Action<T>>)
    requires |slots| > 0
    ensures Reservations(Empty(slots), acts) == |RememberAll(Empty(slots), acts).log|
  {
    if acts != [] {
      ReservationsAreLogged(slots, acts[..|acts| - 1]);
      assert Inv(Run(Empty(slots), acts[..|acts| - 1]), RememberAll(Empty(slots), acts[..|acts| - 1])) by {
        RunKeeps(slots, acts[..|acts| - 1]);
      }
    }
  }

  lemma CompletedStays<T>(s: Ring<T>, h: History<T>, a: Action<T>)
    requires Inv(s, h) && Inv(Step(s, a), Remember(s, h, a))
    ensures Remember(s, h, a).log[..Remember(s, h, a).completed] == h.log[..h.completed] + Accepted(s, a)
  {
  }

  /**
   * Over every run, items come out in the order they went in, each once; of the slots reserved and not popped there are
   * at most `n - 2`, also while one more is being reserved.
   */
  lemma EveryRunIsFifo<T(!new)>(slots: seq<T>, acts: seq<Action<T>>)
    requires |slots| > 0
    ensures var s, sent, got := Run(Empty(slots), acts), Inputs(Empty(slots), acts), Outputs(Empty(slots), acts);
      var reserved := Reservations(Empty(slots), acts) + if s.producer.Bumped? then 1 else 0;
      && got <= sent && |sent| <= reserved
      && (reserved == |got| || reserved + 2 <= |got| + |slots|)
      && Ahead(s.completed, s.tail, |slots|) == |sent| - |got|
      && s.tail < |slots| && (|got| < |sent| ==> s.slots[s.tail] == sent[|got|])
  {
    RunKeeps(slots, acts);
    ReservationsAreLogged(slots, acts);
    var h := RememberAll(Empty(slots), acts);
    AheadIsDifference(h.completed, h.popped, |slots|);
  }

  /** A slot just reserved holds no item that is still to be popped. */
  lemma ReservedSlotIsFree<T(!new)>(slots: seq<T>, acts: seq<Action<T>>, i: nat)
    requires |slots| > 0
    ensures var s, got := Run(Empty(slots), acts), |Outputs(Empty(slots), acts)|;
      s.producer.Bumped? ==>
        && s.producer.slot < |slots|
        && (got <= i < |RememberAll(Empty(slots), acts).log| ==> i % |slots| != s.producer.slot)
  {
    RunKeeps(slots, acts);
    var s, h := Run(Empty(slots), acts), RememberAll(Empty(slots), acts);
    if s.producer.Bumped? && h.popped <= i < |h.log| {
      SlotsAreApart(i, |h.log|, |slots|);
    }
  }

  // ---- The operations, run without interruption

  class AsyncQueue<T> {
    const slots: array<T>
    var reservHead: nat
    var completedHead: nat
    var tail: nat

    constructor (slots: array<T>)
      requires slots.Length > 0
      ensures this.slots == slots && State() == Empty(slots[..])
    {
      this.slots := slots;
      reservHead, completedHead, tail := 0, 0, 0;
    }

    /** The queue between operations. */
    ghost function State(): (s: Ring<T>)
      reads this, slots
    {
      Ring(slots[..], reservHead, completedHead, tail, Idle, Waiting)
    }

    function ReservedNumber(): int
      reads this
    {
      Ahead(reservHead, tail, slots.Length)
    }

    method ReserveNew() returns (slot: int)
      requires slots.Length > 0
      modifies this`reservHead
      ensures State() == Run(old(State()), [ReadTail, Bump, Wrap])
      ensures slot == if old(ReservedNumber()) + 3 > slots.Length then -1 else old(reservHead)
    {
      RunOfThree(State(), ReadTail, Bump, Wrap);
      if ReservedNumber() + 3 > slots.Length {
        return -1;
      }
      slot := reservHead;
      reservHead := reservHead + 1;
      reservHead := reservHead % slots.Length;
    }

    method CompleteLastReserved()
      requires slots.Length > 0
      modifies this`completedHead
      ensures State() == Run(old(State()), [BeginComplete, EndComplete])
    {
      RunOfTwo(State(), BeginComplete, EndComplete);
      if Ahead(reservHead, completedHead, slots.Length) <= 0 {
        return;
      }
      completedHead := (completedHead + 1) % slots.Length;
    }

    method Pop()
      requires slots.Length > 0
      modifies this`tail
      ensures State() == Run(old(State()), [ReadHead, BeginPop, EndPop])
    {
      RunOfThree(State(), ReadHead, BeginPop, EndPop);
      if Ahead(completedHead, tail, slots.Length) < 1 {
        return;
      }
      tail := (tail + 1) % slots.Length;
    }
  }

  lemma RunOfTwo<T>(s: Ring<T>, a: Action<T>, b: Action<T>)
    requires |s.slots| > 0
    ensures Run(s, [a, b]) == Step(Step(s, a), b)
  {
    assert [a, b][..1] == [a] && [a][..0] == [];
    assert Run(s, [a]) == Step(Run(s, []), a);
  }

  lemma RunOfThree<T>(s: Ring<T>, a: Action<T>, b: Action<T>, c: Action<T>)
    requires |s.slots| > 0
    ensures Run(s, [a, b, c]) == Step(Step(Step(s, a), b), c)
  {
    RunOfTwo(s, a, b);
    RunOfMore(s, [a, b], c);
    assert [a, b, c] == [a, b] + [c];
  }

  /** Operations run one after another are one run of their steps. */
  lemma {:induction false} RunsCompose<T>(s: Ring<T>, acts: seq<Action<T>>, more: seq<Action<T>>)
    requires |s.slots| > 0
    ensures Run(s, acts + more) == Run(Run(s, acts), more)
  {
    if more == [] {
      assert acts + more == acts;
    } else {
      var before, last := more[..|more| - 1], more[|more| - 1];
      RunsCompose(s, acts, before);
      assert acts + more == (acts + before) + [last];
      RunOfMore(s, acts + before, last);
      assert more == before + [last];
      RunOfMore(Run(s, acts), before, last);
    }
  }

  lemma RunOfMore<T>(s: Ring<T>, acts: seq<Action<T>>, a: Action<T>)
    requires |s.slots| > 0
    ensures Run(s, acts + [a]) == Step(Run(s, acts), a)
  {
  }

  /** Run alone, a slot is reserved exactly if the ring has room for three. */
  lemma ReserveAlone<T>(s: Ring<T>, h: History<T>)
    requires Inv(s, h) && s.producer == Idle
    ensures var n := |s.slots|;
      Run(s, [ReadTail, Bump, Wrap]) == if |h.log| - h.popped + 3 <= n then s.(reserved := (|h.log| + 1) % n) else s
  {
    RunOfThree(s, ReadTail, Bump, Wrap);
    AheadIsDifference(|h.log|, h.popped, |s.slots|);
    NextPosition(|h.log|, |s.slots|);
  }

  /** Run alone, a slot is completed exactly if one is reserved and not completed. */
  lemma CompleteAlone<T>(s: Ring<T>, h: History<T>)
    requires Inv(s, h) && s.producer == Idle
    ensures var n := |s.slots|;
      Run(s, [BeginComplete, EndComplete]) ==
        if h.completed < |h.log| then s.(completed := (h.completed + 1) % n) else s
  {
    RunOfTwo(s, BeginComplete, EndComplete);
    AheadIsDifference(|h.log|, h.completed, |s.slots|);
    NextPosition(h.completed, |s.slots|);
  }

  /** Run alone, a slot is popped exactly if one is completed and not popped. */
  lemma PopAlone<T>(s: Ring<T>, h: History<T>)
    requires Inv(s, h) && s.consumer == Waiting
    ensures var n := |s.slots|;
      Run(s, [ReadHead, BeginPop, EndPop]) == if h.popped < h.completed then s.(tail := (h.popped + 1) % n) else s
  {
    RunOfThree(s, ReadHead, BeginPop, EndPop);
    AheadIsDifference(h.completed, h.popped, |s.slots|);
    NextPosition(h.popped, |s.slots|);
  }
}

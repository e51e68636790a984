/**
 The lock-free single-producer/single-consumer ring (src/media/spsc.rs), split into its individual
 atomic loads, slot accesses and atomic stores. A run is any list of actions, so every sequentially
 consistent interleaving of one producer and one consumer is covered. The counters wrap at `modulus`
 (2^64 for a 64-bit `usize`).
 */
module SpscRing {
  import opened Wrappers
  import Modular

  /** Where `push` stands; each constructor is the point after one shared-memory access. */
  datatype Producer<T> =
    | PushIdle
    | TailLoaded(value: T, tail: nat)
    | RoomFound(value: T, tail: nat)
    | SlotWritten(value: T, tail: nat)

  /** Where `pop` stands. The value read is `None` when the slot held nothing. */
  datatype Consumer<T> =
    | PopIdle
    | HeadLoaded(head: nat)
    | ItemFound(head: nat)
    | SlotRead(value: Option<T>, head: nat)

  /** A slot is `Some` from the write that fills it until the read that moves the value out. */
  datatype Ring<T> = Ring(slots: seq<Option<T>>, head: nat, tail: nat, producer: Producer<T>, consumer: Consumer<T>)

  datatype Action<T> = BeginPush(value: T) | ProducerStep | BeginPop | ConsumerStep

  /** What a caller can observe, at the step where the operation takes effect. */
  datatype Event<T> = Pushed(value: T) | PushFull(value: T) | Popped(result: Option<T>) | PopEmpty

  function Init<T>(capacity: nat): (r: Ring<T>)
    requires capacity > 0
  {
    Ring(seq(capacity, i => None), 0, 0, PushIdle, PopIdle)
  }

  // ----- the code, one shared access at a time

  function ProducerNext<T>(r: Ring<T>, modulus: nat): (n: (Ring<T>, seq<Event<T>>))
    requires |r.slots| > 0 && modulus > 0
  {
    match r.producer
    case PushIdle => (r, [])
    case TailLoaded(v, tail) =>
      if (tail - r.head) % modulus >= |r.slots| then (r.(producer := PushIdle), [PushFull(v)])
      else (r.(producer := RoomFound(v, tail)), [])
    case RoomFound(v, tail) =>
      (r.(slots := r.slots[tail % |r.slots| := Some(v)], producer := SlotWritten(v, tail)), [])
    case SlotWritten(v, tail) =>
      (r.(tail := (tail + 1) % modulus, producer := PushIdle), [Pushed(v)])
  }

  function ConsumerNext<T>(r: Ring<T>, modulus: nat): (n: (Ring<T>, seq<Event<T>>))
    requires |r.slots| > 0 && modulus > 0
  {
    match r.consumer
    case PopIdle => (r, [])
    case HeadLoaded(head) =>
      if head == r.tail then (r.(consumer := PopIdle), [PopEmpty])
      else (r.(consumer := ItemFound(head)), [])
    case ItemFound(head) =>
      var slot := head % |r.slots|;
      (r.(slots := r.slots[slot := None], consumer := SlotRead(r.slots[slot], head)), [])
    case SlotRead(v, head) =>
      (r.(head := (head + 1) % modulus, consumer := PopIdle), [Popped(v)])
  }

  /** One scheduling choice. An action that is not possible leaves the ring alone. */
  function Next<T>(r: Ring<T>, a: Action<T>, modulus: nat): (n: (Ring<T>, seq<Event<T>>))
    requires |r.slots| > 0 && modulus > 0
    ensures |n.0.slots| == |r.slots|
  {
    match a
    case BeginPush(v) => if r.producer.PushIdle? then (r.(producer := TailLoaded(v, r.tail)), []) else (r, [])
    case ProducerStep => ProducerNext(r, modulus)
    case BeginPop => if r.consumer.PopIdle? then (r.(consumer := HeadLoaded(r.head)), []) else (r, [])
    case ConsumerStep => ConsumerNext(r, modulus)
  }

  /** The state and the observations after a whole schedule. */
  function Run<T>(r: Ring<T>, actions: seq<Action<T>>, modulus: nat): (n: (Ring<T>, seq<Event<T>>))
    requires |r.slots| > 0 && modulus > 0
    ensures |n.0.slots| == |r.slots|
  {
    if actions == [] then (r, [])
    else
      var m := |actions| - 1;
      var before := Run(r, actions[..m], modulus);
      var last := Next(before.0, actions[m], modulus);
      (last.0, before.1 + last.1)
  }

  /** The next producer access overwrites an unread value, or the next consumer access reads an empty slot. */
  predicate AboutToCorrupt<T>(r: Ring<T>)
    requires |r.slots| > 0
  {
    || (r.producer.RoomFound? && r.slots[r.producer.tail % |r.slots|].Some?)
    || (r.consumer.ItemFound? && r.slots[r.consumer.head % |r.slots|].None?)
  }

  // ----- the specification: a bounded FIFO

  /** The queue after `e`, or `None` when a FIFO of this capacity cannot do `e`. */
  function Fifo<T(==)>(q: seq<T>, e: Event<T>, capacity: nat): (n: Option<seq<T>>)
  {
    match e
    case Pushed(v) => if |q| < capacity then Some(q + [v]) else None
    case PushFull(_) => if |q| == capacity then Some(q) else None
    case Popped(v) => if q != [] && v == Some(q[0]) then Some(q[1..]) else None
    case PopEmpty => if q == [] then Some(q) else None
  }

  function FifoRun<T(==)>(events: seq<Event<T>>, capacity: nat): (n: Option<seq<T>>)
  {
    if events == [] then Some([])
    else
      var m := |events| - 1;
      var before :- FifoRun(events[..m], capacity);
      Fifo(before, events[m], capacity)
  }

  // ----- the invariant, over the unbounded history

  /** What slot `i % capacity` holds when the ring has seen `pushed` and popped the first `popped` of them. */
  function Want<T>(r: Ring<T>, pushed: seq<T>, popped: nat, i: nat): (v: Option<T>)
  {
    if i == popped && r.consumer.SlotRead? then None
    else if i < |pushed| then Some(pushed[i])
    else if i == |pushed| && r.producer.SlotWritten? then Some(r.producer.value)
    else None
  }

  predicate SlotOk<T(==)>(r: Ring<T>, pushed: seq<T>, popped: nat, i: nat)
    requires |r.slots| > 0
  {
    r.slots[i % |r.slots|] == Want(r, pushed, popped, i)
  }

  ghost predicate Inv<T>(r: Ring<T>, modulus: nat, pushed: seq<T>, popped: nat)
  {
    var cap := |r.slots|;
    var n := |pushed|;
    && 0 < cap < modulus && modulus % cap == 0
    && popped <= n <= popped + cap
    && r.tail == n % modulus && r.head == popped % modulus
    && (match r.producer
        case PushIdle => true
        case TailLoaded(_, t) => t == n % modulus
        case RoomFound(_, t) => t == n % modulus && n < popped + cap
        case SlotWritten(_, t) => t == n % modulus && n < popped + cap)
    && (match r.consumer
        case PopIdle => true
        case HeadLoaded(h) => h == popped % modulus
        case ItemFound(h) => h == popped % modulus && popped < n
        case SlotRead(v, h) => h == popped % modulus && popped < n && v == Some(pushed[popped]))
    && (forall i: nat {:trigger SlotOk(r, pushed, popped, i)} | popped <= i < popped + cap ::
      SlotOk(r, pushed, popped, i))
  }

  /** Within one window of `cap` counters every slot is used once. */
  lemma SlotsDistinct(lo: nat, i: nat, j: nat, cap: nat)
    requires cap > 0 && lo <= i < lo + cap && lo <= j < lo + cap && i != j
    ensures i % cap != j % cap
  {
    if i < j { Modular.Distinct(i, j, cap); } else { Modular.Distinct(j, i, cap); }
  }

  lemma ProducerKeepsInv<T>(r: Ring<T>, modulus: nat, pushed: seq<T>, popped: nat)
    requires Inv(r, modulus, pushed, popped)
    ensures !(r.producer.RoomFound? && r.slots[r.producer.tail % |r.slots|].Some?)
    ensures r.producer.TailLoaded? ==> (ProducerNext(r, modulus).1 == [PushFull(r.producer.value)]
            <==> |pushed| - popped == |r.slots|)
    ensures var (r', es) := ProducerNext(r, modulus);
            Inv(r', modulus, if es != [] && es[0].Pushed? then pushed + [es[0].value] else pushed, popped)
  {
    var cap, n := |r.slots|, |pushed|;
    var (r', es) := ProducerNext(r, modulus);
    Modular.Distance(popped, n, modulus);
    Modular.ModMod(n, modulus, cap);
    Modular.Successor(n, modulus);
    if n < popped + cap { assert SlotOk(r, pushed, popped, n); }
    var pushed' := if es != [] && es[0].Pushed? then pushed + [es[0].value] else pushed;
    forall i: nat | popped <= i < popped + cap
      ensures SlotOk(r', pushed', popped, i)
    {
      assert SlotOk(r, pushed, popped, i);
      if r.producer.RoomFound? && i != n { SlotsDistinct(popped, i, n, cap); }
    }
  }

  /** Reading the slot empties it and takes the oldest unpopped value. */
  lemma ReadKeepsInv<T>(r: Ring<T>, modulus: nat, pushed: seq<T>, popped: nat)
    requires Inv(r, modulus, pushed, popped) && r.consumer.ItemFound?
    ensures r.slots[r.consumer.head % |r.slots|] == Some(pushed[popped])
    ensures Inv(ConsumerNext(r, modulus).0, modulus, pushed, popped)
  {
    var cap := |r.slots|;
    var r' := ConsumerNext(r, modulus).0;
    Modular.ModMod(popped, modulus, cap);
    assert SlotOk(r, pushed, popped, popped);
    forall i: nat | popped <= i < popped + cap
      ensures SlotOk(r', pushed, popped, i)
    {
      assert SlotOk(r, pushed, popped, i);
      if i != popped { SlotsDistinct(popped, i, popped, cap); }
    }
  }

  /** Storing the head moves the window one counter on; the emptied slot becomes its last. */
  lemma HeadStoreKeepsInv<T>(r: Ring<T>, modulus: nat, pushed: seq<T>, popped: nat)
    requires Inv(r, modulus, pushed, popped) && r.consumer.SlotRead?
    ensures Inv(ConsumerNext(r, modulus).0, modulus, pushed, popped + 1)
  {
    var cap := |r.slots|;
    var r' := ConsumerNext(r, modulus).0;
    Modular.Successor(popped, modulus);
    assert SlotOk(r, pushed, popped, popped);
    Modular.AddTurns(popped, cap, 1);
    assert (popped + cap) % cap == popped % cap;
    forall i: nat {:trigger SlotOk(r', pushed, popped + 1, i)} | popped + 1 <= i < popped + 1 + cap
      ensures SlotOk(r', pushed, popped + 1, i)
    {
      if i < popped + cap { assert SlotOk(r, pushed, popped, i); }
    }
  }

  /** The load of the tail tells whether anything is queued. */
  lemma TailLoadKeepsInv<T>(r: Ring<T>, modulus: nat, pushed: seq<T>, popped: nat)
    requires Inv(r, modulus, pushed, popped) && r.consumer.HeadLoaded?
    ensures ConsumerNext(r, modulus).1 == [PopEmpty] <==> |pushed| == popped
    ensures ConsumerNext(r, modulus).1 == [] || ConsumerNext(r, modulus).1 == [PopEmpty]
    ensures Inv(ConsumerNext(r, modulus).0, modulus, pushed, popped)
  {
    CountersApart(popped, |pushed|, modulus);
    IdleKeepsInv(r, ConsumerNext(r, modulus).0, modulus, pushed, popped);
  }

  /** What two wrapped counters say about the true ones, less than a turn apart. */
  lemma CountersApart(lo: nat, hi: nat, modulus: nat)
    requires 0 <= hi - lo < modulus
    ensures (hi % modulus - lo % modulus) % modulus == hi - lo
    ensures hi % modulus == lo % modulus <==> hi == lo
  {
    Modular.Distance(lo, hi, modulus);
    if lo < hi { Modular.Distinct(lo, hi, modulus); }
  }

  lemma ConsumerKeepsInv<T>(r: Ring<T>, modulus: nat, pushed: seq<T>, popped: nat)
    requires Inv(r, modulus, pushed, popped)
    ensures !(r.consumer.ItemFound? && r.slots[r.consumer.head % |r.slots|].None?)
    ensures r.consumer.HeadLoaded? ==> (ConsumerNext(r, modulus).1 == [PopEmpty] <==> |pushed| == popped)
    ensures var (r', es) := ConsumerNext(r, modulus);
            Inv(r', modulus, pushed, if es != [] && es[0].Popped? then popped + 1 else popped)
  {
    match r.consumer
    case PopIdle =>
    case HeadLoaded(_) => TailLoadKeepsInv(r, modulus, pushed, popped);
    case ItemFound(_) => ReadKeepsInv(r, modulus, pushed, popped);
    case SlotRead(_, _) => HeadStoreKeepsInv(r, modulus, pushed, popped);
  }

  /** A step that moves only a program counter, outside the two slot accesses, keeps every slot right. */
  lemma IdleKeepsInv<T>(r: Ring<T>, r': Ring<T>, modulus: nat, pushed: seq<T>, popped: nat)
    requires Inv(r, modulus, pushed, popped)
    requires r'.slots == r.slots
    requires r'.producer == r.producer || (!r.producer.SlotWritten? && !r'.producer.SlotWritten?)
    requires r'.consumer == r.consumer || (!r.consumer.SlotRead? && !r'.consumer.SlotRead?)
    ensures forall i: nat | popped <= i < popped + |r.slots| :: SlotOk(r', pushed, popped, i)
  {
    forall i: nat | popped <= i < popped + |r.slots| ensures SlotOk(r', pushed, popped, i) {
      assert SlotOk(r, pushed, popped, i);
    }
  }

  function After<T>(pushed: seq<T>, es: seq<Event<T>>): (vs: seq<T>)
  {
    if es != [] && es[0].Pushed? then pushed + [es[0].value] else pushed
  }

  function PoppedAfter<T>(popped: nat, es: seq<Event<T>>): (n: nat)
  {
    if es != [] && es[0].Popped? then popped + 1 else popped
  }

  /** Every step keeps the invariant, and corrupts nothing. */
  lemma StepKeepsInv<T>(r: Ring<T>, a: Action<T>, modulus: nat, pushed: seq<T>, popped: nat)
    requires Inv(r, modulus, pushed, popped)
    ensures !AboutToCorrupt(r)
    ensures var (r', es) := Next(r, a, modulus);
            |es| <= 1 && Inv(r', modulus, After(pushed, es), PoppedAfter(popped, es))
  {
    ProducerKeepsInv(r, modulus, pushed, popped);
    ConsumerKeepsInv(r, modulus, pushed, popped);
    if a.BeginPush? || a.BeginPop? {
      IdleKeepsInv(r, Next(r, a, modulus).0, modulus, pushed, popped);
    }
  }

  /** The two counters give away how many values are unpopped, although they wrap. */
  lemma Occupancy<T>(r: Ring<T>, modulus: nat, pushed: seq<T>, popped: nat)
    requires Inv(r, modulus, pushed, popped)
    ensures (r.tail - r.head) % modulus == |pushed| - popped
    ensures r.tail == r.head <==> |pushed| == popped
  {
    CountersApart(popped, |pushed|, modulus);
  }

  /** The event a step emits is one the FIFO can do, and leaves exactly the values not yet popped. */
  lemma EventAllowed<T>(r: Ring<T>, a: Action<T>, modulus: nat, pushed: seq<T>, popped: nat)
    requires Inv(r, modulus, pushed, popped)
    requires Next(r, a, modulus).1 != []
    ensures var es := Next(r, a, modulus).1;
            Fifo(pushed[popped..], es[0], |r.slots|) == Some(After(pushed, es)[PoppedAfter(popped, es)..])
  {
    Occupancy(r, modulus, pushed, popped);
    var es := Next(r, a, modulus).1;
    match es[0]
    case Pushed(v) => assert (pushed + [v])[popped..] == pushed[popped..] + [v];
    case PushFull(_) =>
    case Popped(_) => assert pushed[popped..][1..] == pushed[popped + 1..];
    case PopEmpty =>
  }

  lemma InitKeepsInv<T>(capacity: nat, modulus: nat)
    requires 0 < capacity < modulus && modulus % capacity == 0
    ensures Inv(Init<T>(capacity), modulus, [], 0)
  {
    var r := Init<T>(capacity);
    forall i: nat | 0 <= i < capacity ensures SlotOk(r, [], 0, i) {
      Modular.Unique(i, capacity, 0, i);
    }
    Modular.Unique(0, modulus, 0, 0);
  }

  /**
   Every run keeps the invariant for some history of pushed values; its events are those of a FIFO that
   now holds exactly the values not yet popped.
   */
  lemma {:induction false} RunKeepsInv<T>(capacity: nat, modulus: nat, actions: seq<Action<T>>)
    returns (pushed: seq<T>, popped: nat)
    requires 0 < capacity < modulus && modulus % capacity == 0
    ensures var (r, es) := Run(Init(capacity), actions, modulus);
            && |r.slots| == capacity
            && Inv(r, modulus, pushed, popped)
            && FifoRun(es, capacity) == Some(pushed[popped..])
  {
    if actions == [] {
      pushed, popped := [], 0;
      InitKeepsInv<T>(capacity, modulus);
    } else {
      var m := |actions| - 1;
      pushed, popped := RunKeepsInv(capacity, modulus, actions[..m]);
      var (r, es) := Run(Init(capacity), actions[..m], modulus);
      StepKeepsInv(r, actions[m], modulus, pushed, popped);
      var now := Next(r, actions[m], modulus).1;
      if now == [] {
        assert es + now == es;
      } else {
        EventAllowed(r, actions[m], modulus, pushed, popped);
        assert (es + now)[..|es|] == es;
      }
      pushed, popped := After(pushed, now), PoppedAfter(popped, now);
    }
  }

  // ----- main results

  /**
   Whenever the capacity divides the counter modulus, every interleaving refines a bounded FIFO and no
   unread slot is ever overwritten, nor an unwritten slot ever read.
   */
  lemma RefinesFifo<T>(capacity: nat, modulus: nat, actions: seq<Action<T>>)
    requires 0 < capacity < modulus && modulus % capacity == 0
    ensures !AboutToCorrupt(Run(Init(capacity), actions, modulus).0)
    ensures FifoRun(Run(Init<T>(capacity), actions, modulus).1, capacity).Some?
  {
    var pushed, popped := RunKeepsInv(capacity, modulus, actions);
    StepKeepsInv(Run(Init(capacity), actions, modulus).0, ProducerStep, modulus, pushed, popped);
  }

  method DropQueued<T>(r: Ring<T>, modulus: nat, ghost pushed: seq<T>, ghost popped: nat) returns (dropped: seq<T>)
    requires Inv(r, modulus, pushed, popped) && r.consumer.PopIdle?
    ensures dropped == pushed[popped..]
  {
    ghost var k := popped;
    var head := r.head;
    dropped := [];
    while head != r.tail
      invariant popped <= k <= |pushed|
      invariant head == k % modulus
      invariant dropped == pushed[popped..k]
      decreases |pushed| - k
    {
      QueuedSlot(r, modulus, pushed, popped, k);
      dropped := dropped + [r.slots[head % |r.slots|].value];
      head := (head + 1) % modulus;
      k := k + 1;
    }
    AtTail(k, |pushed|, modulus);
  }

  /**
   Dropping the ring after any run with no pop in flight drops exactly the values still queued, oldest
   first, each once.
   */
  method Drop<T>(r: Ring<T>, capacity: nat, modulus: nat, ghost actions: seq<Action<T>>) returns (dropped: seq<T>)
    requires 0 < capacity < modulus && modulus % capacity == 0
    requires r == Run(Init(capacity), actions, modulus).0 && r.consumer.PopIdle?
    ensures Some(dropped) == FifoRun(Run(Init(capacity), actions, modulus).1, capacity)
  {
    ghost var pushed, popped := RunKeepsInv(capacity, modulus, actions);
    dropped := DropQueued(r, modulus, pushed, popped);
  }

  lemma AtTail(k: nat, n: nat, modulus: nat)
    requires 0 <= n - k < modulus && k % modulus == n % modulus
    ensures k == n
  {
    Modular.Distance(k, n, modulus);
  }

  /** The slot of a counter still queued holds the value pushed with that counter. */
  lemma QueuedSlot<T>(r: Ring<T>, modulus: nat, pushed: seq<T>, popped: nat, k: nat)
    requires Inv(r, modulus, pushed, popped) && r.consumer.PopIdle? && popped <= k <= |pushed|
    requires k % modulus != r.tail
    ensures k < |pushed| && r.slots[(k % modulus) % |r.slots|] == Some(pushed[k])
    ensures (k % modulus + 1) % modulus == (k + 1) % modulus
  {
    Modular.ModMod(k, modulus, |r.slots|);
    Modular.Successor(k, modulus);
    assert SlotOk(r, pushed, popped, k);
  }

  // ----- len

  /** `len`, with both counters read at once: a saturating subtraction. */
  function Len<T>(r: Ring<T>): (n: nat) { if r.tail >= r.head then r.tail - r.head else 0 }

  predicate IsEmpty<T>(r: Ring<T>) { r.head == r.tail }

  lemma LenOfCounters<T>(r: Ring<T>, modulus: nat, pushed: seq<T>, popped: nat)
    requires Inv(r, modulus, pushed, popped)
    ensures var queued := |pushed| - popped;
            && (Len(r) == queued <==> queued == 0 || r.head + queued < modulus)
            && Len(r) == if r.head + queued < modulus then queued else 0
  {
    var queued := |pushed| - popped;
    assert |pushed| == popped + queued;
    TailOf(popped, queued, modulus);
  }

  /** Where a counter ends up that is `queued` ahead of another. */
  lemma TailOf(popped: nat, queued: nat, modulus: nat)
    requires queued < modulus
    ensures var head := popped % modulus;
            (popped + queued) % modulus == if head + queued < modulus then head + queued else head + queued - modulus
  {
    var head, turns := popped % modulus, popped / modulus;
    if head + queued < modulus {
      Modular.Unique(popped + queued, modulus, turns, head + queued);
    } else {
      assert modulus * (turns + 1) == modulus * turns + modulus;
      Modular.Unique(popped + queued, modulus, turns + 1, head + queued - modulus);
    }
  }

  /**
   After any interleaving, `is_empty` is right, and `len` is the number of values the FIFO holds exactly when there
   are none or the tail counter has not wrapped past the head; else it says zero.
   */
  lemma LenExactIff<T>(capacity: nat, modulus: nat, actions: seq<Action<T>>)
    requires 0 < capacity < modulus && modulus % capacity == 0
    ensures var (r, es) := Run(Init(capacity), actions, modulus);
            var fifo := FifoRun(es, capacity);
            && fifo.Some? && (IsEmpty(r) <==> fifo.value == [])
            && (Len(r) == |fifo.value| <==> fifo.value == [] || r.head + |fifo.value| < modulus)
            && (r.head + |fifo.value| >= modulus ==> Len(r) == 0)
  {
    var pushed, popped := RunKeepsInv(capacity, modulus, actions);
    var r := Run(Init(capacity), actions, modulus).0;
    Occupancy(r, modulus, pushed, popped);
    LenOfCounters(r, modulus, pushed, popped);
  }

  // ----- the capacity must divide the modulus

  lemma Then<T>(r: Ring<T>, actions: seq<Action<T>>, a: Action<T>, modulus: nat)
    requires |r.slots| > 0 && modulus > 0
    ensures Run(r, actions + [a], modulus).0 == Next(Run(r, actions, modulus).0, a, modulus).0
  {
    assert (actions + [a])[..|actions|] == actions;
  }

  lemma {:induction false} RunAppend<T>(r: Ring<T>, first: seq<Action<T>>, second: seq<Action<T>>, modulus: nat)
    requires |r.slots| > 0 && modulus > 0
    ensures Run(r, first + second, modulus).0 == Run(Run(r, first, modulus).0, second, modulus).0
    decreases |second|
  {
    if second == [] {
      assert first + second == first;
    } else {
      var m := |second| - 1;
      RunAppend(r, first, second[..m], modulus);
      assert first + second == first + second[..m] + [second[m]];
      Then(r, first + second[..m], second[m], modulus);
    }
  }

  function PushActions<T>(v: T): (actions: seq<Action<T>>) {
    [BeginPush(v), ProducerStep, ProducerStep, ProducerStep]
  }

  function PopActions<T>(): (actions: seq<Action<T>>) {
    [BeginPop, ConsumerStep, ConsumerStep, ConsumerStep]
  }

  /** An undisturbed push into a ring with room. */
  lemma PushAlone<T>(r: Ring<T>, v: T, modulus: nat)
    requires |r.slots| > 0 && modulus > 0 && r.producer.PushIdle?
    requires (r.tail - r.head) % modulus < |r.slots|
    ensures Run(r, PushActions(v)[..2], modulus).0 == r.(producer := RoomFound(v, r.tail))
    ensures Run(r, PushActions(v), modulus).0 ==
            r.(slots := r.slots[r.tail % |r.slots| := Some(v)], tail := (r.tail + 1) % modulus)
  {
    var actions := PushActions(v);
    Then(r, [], actions[0], modulus);
    Then(r, actions[..1], actions[1], modulus);
    assert actions[..1] + [actions[1]] == actions[..2];
    Then(r, actions[..2], actions[2], modulus);
    assert actions[..2] + [actions[2]] == actions[..3];
    Then(r, actions[..3], actions[3], modulus);
    assert actions[..3] + [actions[3]] == actions;
  }

  lemma PopAlone<T>(r: Ring<T>, modulus: nat)
    requires |r.slots| > 0 && modulus > 0 && r.consumer.PopIdle? && r.head != r.tail
    ensures Run(r, PopActions(), modulus).0 ==
            r.(slots := r.slots[r.head % |r.slots| := None], head := (r.head + 1) % modulus)
  {
    var actions: seq<Action<T>> := PopActions();
    Then(r, [], actions[0], modulus);
    Then(r, actions[..1], actions[1], modulus);
    assert actions[..1] + [actions[1]] == actions[..2];
    Then(r, actions[..2], actions[2], modulus);
    assert actions[..2] + [actions[2]] == actions[..3];
    Then(r, actions[..3], actions[3], modulus);
    assert actions[..3] + [actions[3]] == actions;
  }

  function Quiet<T>(capacity: nat, k: nat): (r: Ring<T>)
    requires capacity > 0
  {
    Ring(seq(capacity, i => None), k, k, PushIdle, PopIdle)
  }

  function RoundTrips<T>(v: T, n: nat): (actions: seq<Action<T>>) {
    if n == 0 then [] else RoundTrips(v, n - 1) + (PushActions(v) + PopActions())
  }

  lemma RoundTrip<T>(capacity: nat, modulus: nat, v: T, k: nat)
    requires 0 < capacity < modulus && k + 1 < modulus
    ensures Run(Quiet(capacity, k), PushActions(v) + PopActions(), modulus).0 == Quiet(capacity, k + 1)
  {
    var r: Ring<T> := Quiet(capacity, k);
    Modular.Unique(0, modulus, 0, 0);
    Modular.Unique(k + 1, modulus, 0, k + 1);
    PushAlone(r, v, modulus);
    RunAppend(r, PushActions(v), PopActions(), modulus);
    var full := Run(r, PushActions(v), modulus).0;
    PopAlone(full, modulus);
    assert full.slots[k % capacity := None] == r.slots;
  }

  /** Pushing and popping one value at a time moves both counters to any position below the modulus. */
  lemma {:induction false} RoundTripsMoveCounters<T>(capacity: nat, modulus: nat, v: T, n: nat)
    requires 0 < capacity < modulus && n < modulus
    ensures Run(Init(capacity), RoundTrips(v, n), modulus).0 == Quiet(capacity, n)
  {
    if n > 0 {
      RoundTripsMoveCounters(capacity, modulus, v, n - 1);
      RoundTrip(capacity, modulus, v, n - 1);
      Onward(capacity, modulus, RoundTrips(v, n - 1), Quiet(capacity, n - 1), PushActions(v) + PopActions(),
             Quiet(capacity, n));
    }
  }

  function Pushes<T>(v: T, n: nat): (actions: seq<Action<T>>) {
    if n == 0 then [] else Pushes(v, n - 1) + PushActions(v)
  }

  /** The ring just after the tail counter wrapped: slot `m` still holds the value pushed before the wrap. */
  function Wrapped<T>(capacity: nat, modulus: nat, v: T, m: nat, n: nat): (r: Ring<T>)
    requires 0 < capacity < modulus
  {
    Ring(seq(capacity, i => if i == m || i < n then Some(v) else None), modulus - 1, n, PushIdle, PopIdle)
  }

  lemma {:induction false} PushesAfterWrap<T>(capacity: nat, modulus: nat, v: T, m: nat, n: nat)
    requires 0 < capacity < modulus && n <= m < capacity - 1
    ensures Run(Wrapped(capacity, modulus, v, m, 0), Pushes(v, n), modulus).0 == Wrapped(capacity, modulus, v, m, n)
  {
    if n > 0 {
      PushesAfterWrap(capacity, modulus, v, m, n - 1);
      RunAppend(Wrapped(capacity, modulus, v, m, 0), Pushes(v, n - 1), PushActions(v), modulus);
      var r := Wrapped(capacity, modulus, v, m, n - 1);
      RoomAfterWrap(r, modulus, n - 1);
      PushAlone(r, v, modulus);
      assert r.slots[n - 1 := Some(v)] == Wrapped(capacity, modulus, v, m, n).slots;
    }
  }

  lemma RoomAfterWrap<T>(r: Ring<T>, modulus: nat, n: nat)
    requires 0 < |r.slots| < modulus && r.head == modulus - 1 && r.tail == n && n + 1 < |r.slots|
    ensures (r.tail - r.head) % modulus == n + 1
    ensures n % |r.slots| == n && (n + 1) % modulus == n + 1
  {
    Modular.Unique(r.tail - r.head, modulus, -1, n + 1);
    Modular.Unique(n, |r.slots|, 0, n);
    Modular.Unique(n + 1, modulus, 0, n + 1);
  }

  /** The push at the last counter value leaves its value in slot `modulus % capacity - 1`. */
  lemma PushAtWrap<T>(capacity: nat, modulus: nat, v: T)
    requires 0 < capacity < modulus && modulus % capacity != 0
    ensures var m := modulus % capacity - 1;
            Run(Quiet(capacity, modulus - 1), PushActions(v), modulus).0 == Wrapped(capacity, modulus, v, m, 0)
  {
    var m := modulus % capacity - 1;
    var quiet: Ring<T> := Quiet(capacity, modulus - 1);
    Modular.Unique(modulus - 1, capacity, modulus / capacity, m);
    Modular.Unique(modulus, modulus, 1, 0);
    Modular.Unique(0, modulus, 0, 0);
    PushAlone(quiet, v, modulus);
    assert quiet.slots[m := Some(v)] == Wrapped(capacity, modulus, v, m, 0).slots;
  }

  /** A push that reaches slot `m` with the tail at `m` is about to overwrite the value from before the wrap. */
  lemma PushOntoUnread<T>(capacity: nat, modulus: nat, v: T, m: nat)
    requires 0 < capacity < modulus && m < capacity - 1
    ensures AboutToCorrupt(Run(Wrapped(capacity, modulus, v, m, m), PushActions(v)[..2], modulus).0)
  {
    var r := Wrapped(capacity, modulus, v, m, m);
    RoomAfterWrap(r, modulus, m);
    PushAlone(r, v, modulus);
  }

  /** A run and what follows it, by the states they lead to. */
  lemma Onward<T>(capacity: nat, modulus: nat, first: seq<Action<T>>, r: Ring<T>, second: seq<Action<T>>, r': Ring<T>)
    requires capacity > 0 && modulus > 0 && |r.slots| > 0
    requires Run(Init(capacity), first, modulus).0 == r && Run(r, second, modulus).0 == r'
    ensures Run(Init(capacity), first + second, modulus).0 == r'
  {
    RunAppend(Init(capacity), first, second, modulus);
  }

  lemma ReachWrap<T>(capacity: nat, modulus: nat, v: T, m: nat) returns (actions: seq<Action<T>>)
    requires 0 < capacity < modulus && modulus % capacity != 0 && m == modulus % capacity - 1
    ensures Run(Init(capacity), actions, modulus).0 == Wrapped(capacity, modulus, v, m, m)
  {
    var first := RoundTrips(v, modulus - 1);
    RoundTripsMoveCounters(capacity, modulus, v, modulus - 1);
    PushAtWrap(capacity, modulus, v);
    var empty := Wrapped(capacity, modulus, v, m, 0);
    Onward(capacity, modulus, first, Quiet(capacity, modulus - 1), PushActions(v), empty);
    PushesAfterWrap(capacity, modulus, v, m, m);
    Onward(capacity, modulus, first + PushActions(v), empty, Pushes(v, m), Wrapped(capacity, modulus, v, m, m));
    actions := first + PushActions(v) + Pushes(v, m);
  }

  /** A capacity that does not divide the modulus has a run that overwrites an unread value. */
  lemma OverwritesAfterWrap<T>(capacity: nat, modulus: nat, v: T) returns (actions: seq<Action<T>>)
    requires 0 < capacity < modulus && modulus % capacity != 0
    ensures !SafeRun(capacity, modulus, actions)
  {
    var m := modulus % capacity - 1;
    var before := ReachWrap(capacity, modulus, v, m);
    PushOntoUnread(capacity, modulus, v, m);
    var (r, push) := (Wrapped(capacity, modulus, v, m, m), PushActions(v)[..2]);
    Onward(capacity, modulus, before, r, push, Run(r, push, modulus).0);
    actions := before + push;
  }

  predicate SafeRun<T>(capacity: nat, modulus: nat, actions: seq<Action<T>>)
    requires 0 < capacity < modulus
  {
    !AboutToCorrupt(Run(Init(capacity), actions, modulus).0)
  }

  /** The exact condition: the ring is safe in every interleaving if and only if its capacity divides the modulus. */
  lemma SafeIffCapacityDividesModulus<T(!new)>(capacity: nat, modulus: nat, v: T)
    requires 0 < capacity < modulus
    ensures (forall actions: seq<Action<T>> :: SafeRun(capacity, modulus, actions)) <==> modulus % capacity == 0
  {
    if modulus % capacity == 0 {
      forall actions: seq<Action<T>> ensures SafeRun(capacity, modulus, actions) {
        RefinesFifo(capacity, modulus, actions);
      }
    } else {
      var actions := OverwritesAfterWrap(capacity, modulus, v);
    }
  }

  /** For every capacity there is a run after which one value is queued and `len` is zero. */
  lemma LenMissesAValue<T>(capacity: nat, modulus: nat, v: T) returns (actions: seq<Action<T>>)
    requires 0 < capacity < modulus
    ensures var r := Run(Init(capacity), actions, modulus).0;
            r.head == modulus - 1 && r.tail == 0 && !IsEmpty(r) && Len(r) == 0
  {
    var first := RoundTrips(v, modulus - 1);
    RoundTripsMoveCounters(capacity, modulus, v, modulus - 1);
    Modular.Unique(0, modulus, 0, 0);
    Modular.Unique(modulus, modulus, 1, 0);
    var quiet: Ring<T> := Quiet(capacity, modulus - 1);
    PushAlone(quiet, v, modulus);
    Onward(capacity, modulus, first, quiet, PushActions(v), Run(quiet, PushActions(v), modulus).0);
    actions := first + PushActions(v);
  }
}

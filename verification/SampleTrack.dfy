/**
 The multi-producer drop-oldest sample queue (src/media/track.rs): any number of cloned sources and any
 number of `recv` calls share one `SpscRing`, guarded by `push_lock` and `pop_lock`. Every step below is
 one atomic access of one thread, so a run is any interleaving of all of them.
 */
module SampleTrack {
  import opened Wrappers
  import opened SpscRing

  /** Where a source handle stands in `try_send_drop_oldest` or (`tryOnly`) in `try_send`. */
  datatype Sender<T> =
    | Free
    | Checked(value: T, tryOnly: bool)
    | Pushing(value: T, tryOnly: bool)
    | Full(value: T)
    | Evicting(value: T)
    | Retrying(value: T)
    | Closing
    | Gone

  /** Where one `recv` call stands. */
  datatype Receiver = Ready | Entering | Popping | Checking | Waiting | ProbingHead | ProbingTail(head: nat)

  datatype Holder = BySender(i: nat) | ByReceiver(j: nat)

  datatype Track<T> = Track(
    ring: Ring<T>,
    senders: seq<Sender<T>>,
    receivers: seq<Receiver>,
    pushLock: Option<nat>,
    popLock: Option<Holder>,
    activeSenders: nat,
    sourceClosed: bool,
    ended: bool)

  datatype Action<T> =
    | Call(i: nat, value: T, tryOnly: bool)
    | SenderStep(i: nat)
    | CloneSender(i: nat)
    | DropSender(i: nat)
    | ReceiverStep(j: nat)
    | Stop

  /**
   What happens to samples. `Queued` and `Contended` are the two ways a `send` returns `Ok`; `Lost` would be
   a failed retry, `Closed` a send refused because the source closed, `Corrupt` an uninitialised sample.
   */
  datatype Event<T> =
    | Queued(value: T)
    | Received(value: T)
    | Evicted(value: T)
    | Contended(value: T)
    | WouldBlock(value: T)
    | Lost(value: T)
    | Closed(value: T)
    | Corrupt
    | EmptySeen
    | Ended

  function Init<T>(capacity: nat, receivers: nat): (t: Track<T>)
    requires capacity > 0
  {
    Track(SpscRing.Init(capacity), [Free], seq(receivers, j => Ready), None, None, 1, false, false)
  }

  // ----- the code

  /** The push-lock holder's next access inside `SpscRing::push`. */
  function RingPush<T>(r: Ring<T>, value: T, modulus: nat): (n: (Ring<T>, seq<SpscRing.Event<T>>))
    requires |r.slots| > 0 && modulus > 0
    ensures |n.0.slots| == |r.slots| && |n.1| <= 1
    ensures n.0.consumer == r.consumer && (n.1 == [] <==> !n.0.producer.PushIdle?)
  {
    Next(r, if r.producer.PushIdle? then BeginPush(value) else ProducerStep, modulus)
  }

  /** The pop-lock holder's next access inside `SpscRing::pop`. */
  function RingPop<T>(r: Ring<T>, modulus: nat): (n: (Ring<T>, seq<SpscRing.Event<T>>))
    requires |r.slots| > 0 && modulus > 0
    ensures |n.0.slots| == |r.slots| && |n.1| <= 1
    ensures n.0.producer == r.producer && (n.1 == [] <==> !n.0.consumer.PopIdle?)
  {
    Next(r, if r.consumer.PopIdle? then BeginPop else ConsumerStep, modulus)
  }

  function Set<T>(t: Track<T>, i: nat, s: Sender<T>): (t': Track<T>)
    requires i < |t.senders|
  {
    t.(senders := t.senders[i := s])
  }

  /** Between `t` and `t'` only sender `i` moved, and it did not start or stop being a live handle. */
  predicate Moved<T(==)>(t: Track<T>, i: nat, t': Track<T>)
    requires i < |t.senders|
  {
    && |t'.senders| == |t.senders| && t'.senders == t.senders[i := t'.senders[i]]
    && (Live(t.senders[i]) <==> Live(t'.senders[i])) && !t'.senders[i].Closing?
    && t'.receivers == t.receivers && t'.activeSenders == t.activeSenders
  }

  // One block per program point of a sender; `i` is the thread.

  function PushBlock<T>(t: Track<T>, i: nat, v: T, tryOnly: bool, modulus: nat): (n: (Track<T>, seq<Event<T>>))
    requires i < |t.senders| && |t.ring.slots| > 0 && modulus > 0
    requires t.senders[i].Pushing?
    ensures Moved(t, i, n.0) && n.0.sourceClosed == t.sourceClosed
  {
    var (r, es) := RingPush(t.ring, v, modulus);
    if es == [] then (t.(ring := r), [])
    else if es[0].Pushed? then (Set(t, i, Free).(ring := r, pushLock := None), [Queued(es[0].value)])
    else if tryOnly then (Set(t, i, Free).(ring := r, pushLock := None), [WouldBlock(v)])
    else (Set(t, i, Full(v)).(ring := r), [])
  }

  function EvictBlock<T>(t: Track<T>, i: nat, v: T, modulus: nat): (n: (Track<T>, seq<Event<T>>))
    requires i < |t.senders| && |t.ring.slots| > 0 && modulus > 0
    requires t.senders[i].Evicting?
    ensures Moved(t, i, n.0) && n.0.sourceClosed == t.sourceClosed
  {
    var (r, es) := RingPop(t.ring, modulus);
    if es == [] then (t.(ring := r), [])
    else (Set(t, i, Retrying(v)).(ring := r), if es[0].Popped? then TakenAs(es[0].result, true) else [])
  }

  function RetryBlock<T>(t: Track<T>, i: nat, v: T, modulus: nat): (n: (Track<T>, seq<Event<T>>))
    requires i < |t.senders| && |t.ring.slots| > 0 && modulus > 0
    requires t.senders[i].Retrying?
    ensures Moved(t, i, n.0) && n.0.sourceClosed == t.sourceClosed
  {
    var (r, es) := RingPush(t.ring, v, modulus);
    if es == [] then (t.(ring := r), [])
    else (Set(t, i, Free).(ring := r, popLock := None, pushLock := None),
          if es[0].Pushed? then [Queued(es[0].value)] else [Lost(v)])
  }

  function TakenAs<T>(x: Option<T>, evicted: bool): (es: seq<Event<T>>)
  {
    match x
    case None => [Corrupt]
    case Some(v) => if evicted then [Evicted(v)] else [Received(v)]
  }

  /** Sender `i` makes its next access. A thread waiting for a lock does not move. */
  function SenderNext<T>(t: Track<T>, i: nat, modulus: nat): (n: (Track<T>, seq<Event<T>>))
    requires i < |t.senders| && |t.ring.slots| > 0 && modulus > 0
    ensures Moved(t, i, n.0) && n.0.sourceClosed == (t.sourceClosed || t.senders[i].Closing?)
    ensures !Live(t.senders[i]) ==> n.1 == []
  {
    match t.senders[i]
    case Checked(v, tryOnly) =>
      if t.pushLock.None? then (Set(t, i, Pushing(v, tryOnly)).(pushLock := Some(i)), [])
      else if tryOnly then (Set(t, i, Free), [WouldBlock(v)])
      else (t, [])
    case Pushing(v, tryOnly) => PushBlock(t, i, v, tryOnly, modulus)
    case Full(v) =>
      if t.popLock.None? then (Set(t, i, Evicting(v)).(popLock := Some(BySender(i))), [])
      else (Set(t, i, Free).(pushLock := None), [Contended(v)])
    case Evicting(v) => EvictBlock(t, i, v, modulus)
    case Retrying(v) => RetryBlock(t, i, v, modulus)
    case Closing => (Set(t, i, Gone).(sourceClosed := true), [])
    case _ => (t, [])
  }

  function PopBlock<T>(t: Track<T>, j: nat, modulus: nat): (n: (Track<T>, seq<Event<T>>))
    requires j < |t.receivers| && |t.ring.slots| > 0 && modulus > 0
    ensures n.0.senders == t.senders && n.0.activeSenders == t.activeSenders && n.0.sourceClosed == t.sourceClosed
    ensures n.1 == [] || (!n.1[0].Queued? && !n.1[0].Closed?)
  {
    var (r, es) := RingPop(t.ring, modulus);
    if es == [] then (t.(ring := r), [])
    else if es[0].Popped? then
      (t.(ring := r, receivers := t.receivers[j := Ready], popLock := None), TakenAs(es[0].result, false))
    else (t.(ring := r, receivers := t.receivers[j := Checking]), [EmptySeen])
  }

  /** `recv` call `j` makes its next access. */
  function ReceiverNext<T>(t: Track<T>, j: nat, modulus: nat): (n: (Track<T>, seq<Event<T>>))
    requires j < |t.receivers| && |t.ring.slots| > 0 && modulus > 0
    ensures n.0.senders == t.senders && n.0.activeSenders == t.activeSenders && n.0.sourceClosed == t.sourceClosed
    ensures n.1 == [] || (!n.1[0].Queued? && !n.1[0].Closed?)
  {
    match t.receivers[j]
    case Ready => (if t.ended then t else t.(receivers := t.receivers[j := Entering]), [])
    case Entering =>
      if t.popLock.None? then (t.(receivers := t.receivers[j := Popping], popLock := Some(ByReceiver(j))), [])
      else (t, [])
    case Popping => PopBlock(t, j, modulus)
    case Checking =>
      if t.sourceClosed then (t.(receivers := t.receivers[j := Ready], popLock := None, ended := true), [Ended])
      else (t.(receivers := t.receivers[j := Waiting], popLock := None), [])
    case Waiting => (t.(receivers := t.receivers[j := if t.sourceClosed then ProbingHead else Ready]), [])
    case ProbingHead => (t.(receivers := t.receivers[j := ProbingTail(t.ring.head)]), [])
    case ProbingTail(head) =>
      if head == t.ring.tail then (t.(receivers := t.receivers[j := Ready], ended := true), [Ended])
      else (t.(receivers := t.receivers[j := Ready]), [])
  }

  function Step<T>(t: Track<T>, a: Action<T>, modulus: nat): (n: (Track<T>, seq<Event<T>>))
    requires |t.ring.slots| > 0 && modulus > 0
    ensures |n.0.ring.slots| == |t.ring.slots|
  {
    match a
    case Call(i, v, tryOnly) =>
      if i < |t.senders| && t.senders[i].Free? then
        if t.sourceClosed then (t, [Closed(v)]) else (Set(t, i, Checked(v, tryOnly)), [])
      else (t, [])
    case SenderStep(i) => if i < |t.senders| then SenderNext(t, i, modulus) else (t, [])
    case CloneSender(i) =>
      if i < |t.senders| && Live(t.senders[i]) then
        (t.(senders := t.senders + [Free], activeSenders := t.activeSenders + 1), [])
      else (t, [])
    case DropSender(i) =>
      if i < |t.senders| && t.senders[i].Free? && t.activeSenders > 0 then
        (Set(t, i, if t.activeSenders == 1 then Closing else Gone).(activeSenders := t.activeSenders - 1), [])
      else (t, [])
    case ReceiverStep(j) => if j < |t.receivers| then ReceiverNext(t, j, modulus) else (t, [])
    case Stop => (t.(ended := true), [])
  }

  function Run<T>(t: Track<T>, actions: seq<Action<T>>, modulus: nat): (n: (Track<T>, seq<Event<T>>))
    requires |t.ring.slots| > 0 && modulus > 0
    ensures |n.0.ring.slots| == |t.ring.slots|
  {
    if actions == [] then (t, [])
    else
      var m := |actions| - 1;
      var before := Run(t, actions[..m], modulus);
      var last := Step(before.0, actions[m], modulus);
      (last.0, before.1 + last.1)
  }

  predicate Live<T>(s: Sender<T>) { !s.Closing? && !s.Gone? }

  // ----- reading the history

  /** The history a single event is added to: all samples queued, all taken out, and those queued since the
      last time a `recv` found the ring empty. */
  datatype History<T> = History(queued: seq<T>, taken: seq<T>, sinceEmpty: seq<T>)

  function Add<T>(h: History<T>, es: seq<Event<T>>): (h': History<T>)
  {
    if es == [] then h
    else match es[0]
      case Queued(v) => h.(queued := h.queued + [v], sinceEmpty := h.sinceEmpty + [v])
      case Received(v) => h.(taken := h.taken + [v])
      case Evicted(v) => h.(taken := h.taken + [v])
      case EmptySeen => h.(sinceEmpty := [])
      case _ => h
  }

  function Read<T>(log: seq<Event<T>>): (h: History<T>)
  {
    if log == [] then History([], [], []) else Add(Read(log[..|log| - 1]), [log[|log| - 1]])
  }

  predicate Clean<T>(e: Event<T>) { !e.Lost? && !e.Closed? && !e.Corrupt? }

  // ----- the invariant

  predicate HoldsPush<T>(s: Sender<T>) { s.Pushing? || s.Full? || s.Evicting? || s.Retrying? }
  predicate HoldsPop<T>(s: Sender<T>) { s.Evicting? || s.Retrying? }
  predicate ReceiverHoldsPop(r: Receiver) { r.Popping? || r.Checking? }

  /** The locks admit one thread each, and only the holder can be inside the ring. */
  ghost predicate Roles<T>(t: Track<T>)
  {
    && (forall i | 0 <= i < |t.senders| :: HoldsPush(t.senders[i]) <==> t.pushLock == Some(i))
    && (forall i | 0 <= i < |t.senders| :: HoldsPop(t.senders[i]) <==> t.popLock == Some(BySender(i)))
    && (forall j | 0 <= j < |t.receivers| :: ReceiverHoldsPop(t.receivers[j]) <==> t.popLock == Some(ByReceiver(j)))
    && (t.pushLock.Some? ==> t.pushLock.value < |t.senders|)
    && (t.popLock.Some? && t.popLock.value.BySender? ==> t.popLock.value.i < |t.senders|)
    && (t.popLock.Some? && t.popLock.value.ByReceiver? ==> t.popLock.value.j < |t.receivers|)
    && (!t.ring.producer.PushIdle? ==> t.pushLock.Some? && InRingPush(t.senders[t.pushLock.value]))
    && (!t.ring.consumer.PopIdle? ==>
          t.popLock.Some? && (match t.popLock.value
                              case BySender(i) => t.senders[i].Evicting?
                              case ByReceiver(j) => t.receivers[j].Popping?))
  }

  predicate InRingPush<T>(s: Sender<T>) { s.Pushing? || s.Retrying? }

  /** The queue: what was queued is what was taken followed by what the ring holds. */
  ghost predicate Flow<T>(ring: Ring<T>, modulus: nat, queued: seq<T>, taken: seq<T>)
  {
    Inv(ring, modulus, queued, |taken|) && taken <= queued
  }

  predicate Retries<T>(t: Track<T>)
    requires t.pushLock.Some? ==> t.pushLock.value < |t.senders|
  {
    t.pushLock.Some? && t.senders[t.pushLock.value].Retrying?
  }

  predicate Checks<T>(t: Track<T>)
    requires t.popLock.Some? && t.popLock.value.ByReceiver? ==> t.popLock.value.j < |t.receivers|
  {
    t.popLock.Some? && t.popLock.value.ByReceiver? && t.receivers[t.popLock.value.j].Checking?
  }

  function LiveCount<T>(senders: seq<Sender<T>>): (n: nat)
  {
    if senders == [] then 0
    else LiveCount(senders[..|senders| - 1]) + (if Live(senders[|senders| - 1]) then 1 else 0)
  }

  ghost predicate Life<T>(t: Track<T>)
  {
    && t.activeSenders == LiveCount(t.senders)
    && (t.sourceClosed ==> t.activeSenders == 0)
    && (forall i | 0 <= i < |t.senders| :: t.senders[i].Closing? ==> t.activeSenders == 0)
  }

  /** A `recv` re-checking after a wake-up does so only once no sender is left, so the tail it reads is final. */
  ghost predicate Probes<T>(t: Track<T>, modulus: nat, queued: nat, taken: nat)
    requires modulus > 0
  {
    forall j | 0 <= j < |t.receivers| ::
      && (t.receivers[j].ProbingHead? ==> t.sourceClosed)
      && (t.receivers[j].ProbingTail? ==>
            t.sourceClosed && exists k :: WasHead(k, t.receivers[j].head, modulus, queued, taken, |t.ring.slots|))
  }

  predicate WasHead(k: nat, head: nat, modulus: nat, queued: nat, taken: nat, capacity: nat)
    requires modulus > 0
  {
    k <= taken && queued <= k + capacity && head == k % modulus
  }

  /** Everything but the sender count: who may be in the ring, what it holds, and what the lock holders know. */
  ghost predicate Core<T>(t: Track<T>, modulus: nat, h: History<T>)
  {
    && Roles(t)
    && Flow(t.ring, modulus, h.queued, h.taken)
    && (Retries(t) ==> |h.queued| - |h.taken| < |t.ring.slots|)
    && (Checks(t) ==> h.queued[|h.taken|..] == h.sinceEmpty)
  }

  /** `n` is a step from `t` that keeps `Core`, with at most one event, none of them a failure. */
  ghost predicate Sound<T>(n: (Track<T>, seq<Event<T>>), modulus: nat, h: History<T>)
  {
    |n.1| <= 1 && (n.1 != [] ==> Clean(n.1[0])) && Core(n.0, modulus, Add(h, n.1))
  }

  // ----- every step keeps it

  lemma RingPushFlow<T>(r: Ring<T>, v: T, modulus: nat, queued: seq<T>, taken: seq<T>)
    requires Flow(r, modulus, queued, taken)
    ensures var (r', es) := RingPush(r, v, modulus);
            && (es == [] ==> Flow(r', modulus, queued, taken))
            && (es != [] ==> es[0].Pushed? || es[0].PushFull?)
            && (es != [] && es[0].Pushed? ==> Flow(r', modulus, queued + [es[0].value], taken))
            && (es != [] && es[0].PushFull? ==> Flow(r', modulus, queued, taken) && |queued| - |taken| == |r.slots|)
  {
    StepKeepsInv(r, if r.producer.PushIdle? then BeginPush(v) else ProducerStep, modulus, queued, |taken|);
    Occupancy(r, modulus, queued, |taken|);
  }

  lemma RingPopFlow<T>(r: Ring<T>, modulus: nat, queued: seq<T>, taken: seq<T>)
    requires Flow(r, modulus, queued, taken)
    ensures var (r', es) := RingPop(r, modulus);
            && (es == [] ==> Flow(r', modulus, queued, taken))
            && (es != [] ==> es[0].Popped? || es[0].PopEmpty?)
            && (es != [] && es[0].Popped? ==>
                  |taken| < |queued| && es[0].result == Some(queued[|taken|])
                    && Flow(r', modulus, queued, taken + [queued[|taken|]]))
            && (es != [] && es[0].PopEmpty? ==> Flow(r', modulus, queued, taken) && |queued| == |taken|)
  {
    StepKeepsInv(r, if r.consumer.PopIdle? then BeginPop else ConsumerStep, modulus, queued, |taken|);
    Occupancy(r, modulus, queued, |taken|);
  }

  /** A lock changes hands only between free and thread `me`. */
  predicate Handover<H(==)>(before: Option<H>, after: Option<H>, me: H)
  {
    after == before || (before.None? && after == Some(me)) || (before == Some(me) && after.None?)
  }

  lemma RolesAfterSender<T>(t: Track<T>, i: nat, s: Sender<T>, t': Track<T>)
    requires Roles(t) && i < |t.senders|
    requires t'.senders == t.senders[i := s] && t'.receivers == t.receivers
    requires Handover(t.pushLock, t'.pushLock, i) && (HoldsPush(s) <==> t'.pushLock == Some(i))
    requires Handover(t.popLock, t'.popLock, BySender(i)) && (HoldsPop(s) <==> t'.popLock == Some(BySender(i)))
    requires t'.ring.producer.PushIdle? || (t'.pushLock == Some(i) && InRingPush(s))
             || (t'.ring.producer == t.ring.producer && t.pushLock == t'.pushLock != Some(i))
    requires t'.ring.consumer.PopIdle? || (t'.popLock == Some(BySender(i)) && s.Evicting?)
             || (t'.ring.consumer == t.ring.consumer && t.popLock == t'.popLock != Some(BySender(i)))
    ensures Roles(t')
  {
  }

  lemma RolesAfterReceiver<T>(t: Track<T>, j: nat, r: Receiver, t': Track<T>)
    requires Roles(t) && j < |t.receivers|
    requires t'.receivers == t.receivers[j := r] && t'.senders == t.senders && t'.pushLock == t.pushLock
    requires Handover(t.popLock, t'.popLock, ByReceiver(j))
             && (ReceiverHoldsPop(r) <==> t'.popLock == Some(ByReceiver(j)))
    requires t'.ring.producer == t.ring.producer
    requires t'.ring.consumer.PopIdle? || (t'.popLock == Some(ByReceiver(j)) && r.Popping?)
             || (t'.ring.consumer == t.ring.consumer && t.popLock == t'.popLock != Some(ByReceiver(j)))
    ensures Roles(t')
  {
  }

  lemma PushBlockSound<T>(t: Track<T>, i: nat, v: T, tryOnly: bool, modulus: nat, h: History<T>)
    requires Core(t, modulus, h) && i < |t.senders| && t.senders[i] == Pushing(v, tryOnly)
    ensures Sound(PushBlock(t, i, v, tryOnly, modulus), modulus, h)
  {
    RingPushFlow(t.ring, v, modulus, h.queued, h.taken);
    var (t', es) := PushBlock(t, i, v, tryOnly, modulus);
    RolesAfterSender(t, i, t'.senders[i], t');
  }

  lemma RetryBlockSound<T>(t: Track<T>, i: nat, v: T, modulus: nat, h: History<T>)
    requires Core(t, modulus, h) && i < |t.senders| && t.senders[i] == Retrying(v)
    ensures Sound(RetryBlock(t, i, v, modulus), modulus, h)
  {
    RingPushFlow(t.ring, v, modulus, h.queued, h.taken);
    var (t', es) := RetryBlock(t, i, v, modulus);
    RolesAfterSender(t, i, t'.senders[i], t');
  }

  lemma EvictBlockSound<T>(t: Track<T>, i: nat, v: T, modulus: nat, h: History<T>)
    requires Core(t, modulus, h) && i < |t.senders| && t.senders[i] == Evicting(v)
    ensures Sound(EvictBlock(t, i, v, modulus), modulus, h)
  {
    RingPopFlow(t.ring, modulus, h.queued, h.taken);
    var (t', es) := EvictBlock(t, i, v, modulus);
    RolesAfterSender(t, i, t'.senders[i], t');
  }

  lemma PopBlockSound<T>(t: Track<T>, j: nat, modulus: nat, h: History<T>)
    requires Core(t, modulus, h) && j < |t.receivers| && t.receivers[j].Popping?
    ensures Sound(PopBlock(t, j, modulus), modulus, h)
  {
    RingPopFlow(t.ring, modulus, h.queued, h.taken);
    var (t', es) := PopBlock(t, j, modulus);
    RolesAfterReceiver(t, j, t'.receivers[j], t');
  }

  lemma LockSound<T>(t: Track<T>, i: nat, modulus: nat, h: History<T>)
    requires Core(t, modulus, h) && i < |t.senders|
    requires t.senders[i].Checked? || t.senders[i].Full? || t.senders[i].Closing?
    ensures Sound(SenderNext(t, i, modulus), modulus, h)
  {
    LockRoles(t, i, modulus, h);
  }

  lemma LockRoles<T>(t: Track<T>, i: nat, modulus: nat, h: History<T>)
    requires Core(t, modulus, h) && i < |t.senders|
    requires t.senders[i].Checked? || t.senders[i].Full? || t.senders[i].Closing?
    ensures Roles(SenderNext(t, i, modulus).0)
  {
    var t' := SenderNext(t, i, modulus).0;
    RolesAfterSender(t, i, t'.senders[i], t');
  }

  lemma SenderSound<T>(t: Track<T>, i: nat, modulus: nat, h: History<T>)
    requires Core(t, modulus, h) && i < |t.senders|
    ensures Sound(SenderNext(t, i, modulus), modulus, h)
  {
    match t.senders[i]
    case Pushing(v, tryOnly) => PushBlockSound(t, i, v, tryOnly, modulus, h);
    case Evicting(v) => EvictBlockSound(t, i, v, modulus, h);
    case Retrying(v) => RetryBlockSound(t, i, v, modulus, h);
    case Free =>
    case Gone =>
    case _ => LockSound(t, i, modulus, h);
  }

  lemma ProbeSound<T>(t: Track<T>, j: nat, modulus: nat, h: History<T>)
    requires Core(t, modulus, h) && j < |t.receivers| && !t.receivers[j].Popping?
    ensures Sound(ReceiverNext(t, j, modulus), modulus, h)
  {
    ProbeRoles(t, j, modulus, h);
    ProbeKeeps(t, j, modulus);
  }

  /** A step of `recv` outside its pop leaves ring and senders alone, and nobody new in the middle of a check. */
  lemma ProbeKeeps<T>(t: Track<T>, j: nat, modulus: nat)
    requires Roles(t) && j < |t.receivers| && !t.receivers[j].Popping? && |t.ring.slots| > 0 && modulus > 0
    requires Roles(ReceiverNext(t, j, modulus).0)
    ensures var (t', es) := ReceiverNext(t, j, modulus);
            && t'.ring == t.ring && (Retries(t') <==> Retries(t)) && (Checks(t') ==> Checks(t))
            && (es == [] || es == [Ended])
  {
  }

  lemma ProbeRoles<T>(t: Track<T>, j: nat, modulus: nat, h: History<T>)
    requires Core(t, modulus, h) && j < |t.receivers| && !t.receivers[j].Popping?
    ensures Roles(ReceiverNext(t, j, modulus).0)
  {
    var t' := ReceiverNext(t, j, modulus).0;
    RolesAfterReceiver(t, j, t'.receivers[j], t');
  }

  lemma ReceiverSound<T>(t: Track<T>, j: nat, modulus: nat, h: History<T>)
    requires Core(t, modulus, h) && j < |t.receivers|
    ensures Sound(ReceiverNext(t, j, modulus), modulus, h)
  {
    if t.receivers[j].Popping? { PopBlockSound(t, j, modulus, h); } else { ProbeSound(t, j, modulus, h); }
  }

  /** No handle is live once the count is zero; a live one makes it positive. */
  lemma {:induction false} LiveCounted<T>(senders: seq<Sender<T>>, i: nat)
    requires i < |senders| && Live(senders[i])
    ensures LiveCount(senders) > 0
  {
    if i < |senders| - 1 { LiveCounted(senders[..|senders| - 1], i); }
  }

  lemma {:induction false} LiveCountAfter<T>(senders: seq<Sender<T>>, i: nat, s: Sender<T>)
    requires i < |senders|
    ensures LiveCount(senders[i := s]) + (if Live(senders[i]) then 1 else 0)
            == LiveCount(senders) + (if Live(s) then 1 else 0)
  {
    var m := |senders| - 1;
    if i < m {
      LiveCountAfter(senders[..m], i, s);
      assert senders[i := s][..m] == senders[..m][i := s];
    } else {
      assert senders[i := s][..m] == senders[..m];
    }
  }

  /** The handle count: while any handle is live the source is not closed, so no send is refused as closed. */
  lemma LifeKept<T>(t: Track<T>, a: Action<T>, modulus: nat)
    requires Life(t) && |t.ring.slots| > 0 && modulus > 0
    ensures Life(Step(t, a, modulus).0)
    ensures t.sourceClosed ==> var (t', es) := Step(t, a, modulus);
                               t'.sourceClosed && (es == [] || (!es[0].Queued? && !es[0].Closed?))
  {
    match a
    case ReceiverStep(_) =>
    case Stop =>
    case SenderStep(i) => if i < |t.senders| { SenderKeepsLife(t, i, modulus); }
    case _ => HandleKeepsLife(t, a, modulus);
  }

  lemma HandleKeepsLife<T>(t: Track<T>, a: Action<T>, modulus: nat)
    requires Life(t) && |t.ring.slots| > 0 && modulus > 0
    requires a.Call? || a.CloneSender? || a.DropSender?
    ensures var (t', es) := Step(t, a, modulus);
            Life(t') && es == [] && t'.sourceClosed == t.sourceClosed
  {
    var t' := Step(t, a, modulus).0;
    LifeKeptBy(t, a.i, t');
    if a.CloneSender? && a.i < |t.senders| && Live(t.senders[a.i]) {
      assert t'.senders[..|t.senders|] == t.senders;
    }
  }

  lemma LifeKeptBy<T>(t: Track<T>, i: nat, t': Track<T>)
    requires Life(t)
    ensures i < |t.senders| && Live(t.senders[i]) ==> !t.sourceClosed && t.activeSenders > 0
    ensures i < |t.senders| && i < |t'.senders| && t'.senders == t.senders[i := t'.senders[i]] ==>
              LiveCount(t'.senders) + (if Live(t.senders[i]) then 1 else 0)
                == LiveCount(t.senders) + (if Live(t'.senders[i]) then 1 else 0)
  {
    if i < |t.senders| && Live(t.senders[i]) { LiveCounted(t.senders, i); }
    if i < |t.senders| && i < |t'.senders| { LiveCountAfter(t.senders, i, t'.senders[i]); }
  }

  lemma SenderKeepsLife<T>(t: Track<T>, i: nat, modulus: nat)
    requires Life(t) && |t.ring.slots| > 0 && modulus > 0 && i < |t.senders|
    ensures var (t', es) := SenderNext(t, i, modulus);
            Life(t') && (t.sourceClosed ==> t'.sourceClosed && es == [])
  {
    var t' := SenderNext(t, i, modulus).0;
    LifeKeptBy(t, i, t');
  }

  lemma StepSound<T>(t: Track<T>, a: Action<T>, modulus: nat, h: History<T>)
    requires Core(t, modulus, h) && Life(t)
    ensures Sound(Step(t, a, modulus), modulus, h)
  {
    match a
    case SenderStep(i) => if i < |t.senders| { SenderSound(t, i, modulus, h); }
    case ReceiverStep(j) => if j < |t.receivers| { ReceiverSound(t, j, modulus, h); }
    case Stop =>
    case _ => HandleSound(t, a, modulus, h);
  }

  lemma HandleSound<T>(t: Track<T>, a: Action<T>, modulus: nat, h: History<T>)
    requires Core(t, modulus, h) && Life(t)
    requires a.Call? || a.CloneSender? || a.DropSender?
    ensures Sound(Step(t, a, modulus), modulus, h)
  {
    if a.Call? {
      CallSound(t, a, modulus, h);
    } else if a.CloneSender? {
      CloneSound(t, a, modulus, h);
    } else {
      DropSound(t, a, modulus, h);
    }
  }

  lemma CallSound<T>(t: Track<T>, a: Action<T>, modulus: nat, h: History<T>)
    requires Core(t, modulus, h) && Life(t) && a.Call?
    ensures Sound(Step(t, a, modulus), modulus, h)
  {
    var t' := Step(t, a, modulus).0;
    HandleKeepsLife(t, a, modulus);
    if a.i < |t.senders| && t.senders[a.i].Free? { RolesAfterSender(t, a.i, t'.senders[a.i], t'); }
  }

  lemma RolesAfterClone<T>(t: Track<T>, t': Track<T>)
    requires Roles(t) && t' == t.(senders := t.senders + [Free], activeSenders := t.activeSenders + 1)
    ensures Roles(t') && (Retries(t') <==> Retries(t)) && (Checks(t') <==> Checks(t))
  {
  }

  lemma CloneSound<T>(t: Track<T>, a: Action<T>, modulus: nat, h: History<T>)
    requires Core(t, modulus, h) && Life(t) && a.CloneSender?
    ensures Sound(Step(t, a, modulus), modulus, h)
  {
    var t' := Step(t, a, modulus).0;
    if a.i < |t.senders| && Live(t.senders[a.i]) { RolesAfterClone(t, t'); }
  }

  lemma DropSound<T>(t: Track<T>, a: Action<T>, modulus: nat, h: History<T>)
    requires Core(t, modulus, h) && Life(t) && a.DropSender?
    ensures Sound(Step(t, a, modulus), modulus, h)
  {
    var t' := Step(t, a, modulus).0;
    HandleKeepsLife(t, a, modulus);
    if a.i < |t.senders| && t.senders[a.i].Free? { RolesAfterSender(t, a.i, t'.senders[a.i], t'); }
  }

  lemma ProbesKept<T>(t: Track<T>, a: Action<T>, modulus: nat, h: History<T>)
    requires Core(t, modulus, h) && Life(t) && Probes(t, modulus, |h.queued|, |h.taken|)
    ensures var (t', es) := Step(t, a, modulus);
            Probes(t', modulus, |Add(h, es).queued|, |Add(h, es).taken|)
  {
    var (t', es) := Step(t, a, modulus);
    LifeKept(t, a, modulus);
    ReceiversFrame(t, a, modulus);
    var h' := Add(h, es);
    forall j | 0 <= j < |t'.receivers|
      ensures t'.receivers[j].ProbingHead? ==> t'.sourceClosed
      ensures t'.receivers[j].ProbingTail? ==>
                t'.sourceClosed && exists k ::
                  WasHead(k, t'.receivers[j].head, modulus, |h'.queued|, |h'.taken|, |t'.ring.slots|)
    {
      if t'.receivers[j].ProbingTail? {
        if t'.receivers[j] == t.receivers[j] {
          var k :| WasHead(k, t.receivers[j].head, modulus, |h.queued|, |h.taken|, |t.ring.slots|);
          assert WasHead(k, t'.receivers[j].head, modulus, |h'.queued|, |h'.taken|, |t'.ring.slots|);
        } else {
          assert WasHead(|h.taken|, t'.receivers[j].head, modulus, |h'.queued|, |h'.taken|, |t'.ring.slots|);
        }
      }
    }
  }

  /** Only `recv` itself moves a `recv`; it starts probing with the source closed, and reads the current head. */
  lemma ReceiversFrame<T>(t: Track<T>, a: Action<T>, modulus: nat)
    requires |t.ring.slots| > 0 && modulus > 0
    ensures var (t', es) := Step(t, a, modulus);
            && |t'.receivers| == |t.receivers|
            && forall j | 0 <= j < |t.receivers| && t'.receivers[j] != t.receivers[j] ::
                 && (t'.receivers[j].ProbingHead? ==> t.sourceClosed && t'.sourceClosed)
                 && (t'.receivers[j].ProbingTail?
                   ==> t.receivers[j].ProbingHead? && t'.receivers[j].head == t.ring.head && es == [])
  {
  }

  /**
   When a `recv` declares the end of the stream, what it leaves behind in the queue is exactly what was
   queued after a `recv` last found it empty; the re-check after a wake-up leaves nothing behind.
   */
  lemma EndAccount<T>(t: Track<T>, j: nat, modulus: nat, h: History<T>)
    requires Core(t, modulus, h) && Probes(t, modulus, |h.queued|, |h.taken|) && j < |t.receivers|
    requires ReceiverNext(t, j, modulus).1 == [Ended]
    ensures t.sourceClosed
    ensures h.queued == h.taken + (if t.receivers[j].Checking? then h.sinceEmpty else [])
  {
    if t.receivers[j].Checking? {
      assert h.queued == h.queued[..|h.taken|] + h.queued[|h.taken|..];
    } else {
      var k :| WasHead(k, t.receivers[j].head, modulus, |h.queued|, |h.taken|, |t.ring.slots|);
      AtTail(k, |h.queued|, modulus);
    }
  }

  ghost predicate Good<T>(t: Track<T>, modulus: nat, log: seq<Event<T>>)
  {
    var h := Read(log);
    && Core(t, modulus, h)
    && Life(t)
    && Probes(t, modulus, |h.queued|, |h.taken|)
    && (forall e | e in log :: Clean(e))
  }

  lemma InitGood<T>(capacity: nat, modulus: nat, receivers: nat)
    requires 0 < capacity < modulus && modulus % capacity == 0
    ensures Good(Init<T>(capacity, receivers), modulus, [])
  {
    InitKeepsInv<T>(capacity, modulus);
  }

  /** In every run, the invariant holds. */
  lemma {:induction false} RunGood<T>(capacity: nat, modulus: nat, receivers: nat, actions: seq<Action<T>>)
    requires 0 < capacity < modulus && modulus % capacity == 0
    ensures var (t, log) := Run(Init(capacity, receivers), actions, modulus);
            |t.ring.slots| == capacity && Good(t, modulus, log)
  {
    if actions == [] {
      InitGood<T>(capacity, modulus, receivers);
    } else {
      var m := |actions| - 1;
      RunGood(capacity, modulus, receivers, actions[..m]);
      var (t, log) := Run(Init(capacity, receivers), actions[..m], modulus);
      var (t', es) := Step(t, actions[m], modulus);
      StepSound(t, actions[m], modulus, Read(log));
      LifeKept(t, actions[m], modulus);
      ProbesKept(t, actions[m], modulus, Read(log));
      ReadSnoc(log, es);
    }
  }

  lemma ReadSnoc<T>(log: seq<Event<T>>, es: seq<Event<T>>)
    requires |es| <= 1
    ensures Read(log + es) == Add(Read(log), es)
  {
    if es == [] { assert log + es == log; } else { assert (log + es)[..|log|] == log; }
  }

  // ----- main results

  /** In every run each lock has at most one holder, and a thread inside ring `push` (`pop`) holds the lock for it. */
  lemma MutualExclusion<T>(capacity: nat, modulus: nat, receivers: nat, actions: seq<Action<T>>)
    requires 0 < capacity < modulus && modulus % capacity == 0
    ensures var t := Run(Init(capacity, receivers), actions, modulus).0;
            && (forall i, k | 0 <= i < k < |t.senders| :: !(HoldsPush(t.senders[i]) && HoldsPush(t.senders[k])))
            && (forall i, k | 0 <= i < k < |t.senders| :: !(HoldsPop(t.senders[i]) && HoldsPop(t.senders[k])))
            && (forall j, k | 0 <= j < k < |t.receivers| ::
              !(ReceiverHoldsPop(t.receivers[j]) && ReceiverHoldsPop(t.receivers[k])))
            && (forall i, j | 0 <= i < |t.senders| && 0 <= j < |t.receivers| ::
              !(HoldsPop(t.senders[i]) && ReceiverHoldsPop(t.receivers[j])))
            && !AboutToCorrupt(t.ring)
  {
    RunGood(capacity, modulus, receivers, actions);
    var (t, log) := Run(Init(capacity, receivers), actions, modulus);
    StepKeepsInv(t.ring, ProducerStep, modulus, Read(log).queued, |Read(log).taken|);
  }

  /** In every run the retry after an eviction succeeds, no send is refused as closed, no sample is uninitialised. */
  lemma NoSampleLost<T>(capacity: nat, modulus: nat, receivers: nat, actions: seq<Action<T>>)
    requires 0 < capacity < modulus && modulus % capacity == 0
    ensures forall e | e in Run(Init<T>(capacity, receivers), actions, modulus).1 ::
              !e.Lost? && !e.Closed? && !e.Corrupt?
  {
    RunGood(capacity, modulus, receivers, actions);
  }

  datatype Fate = WasReceived | WasEvicted | WasContended | WasAccepted

  predicate Meets<T>(e: Event<T>, f: Fate)
  {
    match f
    case WasReceived => e.Received?
    case WasEvicted => e.Evicted?
    case WasContended => e.Contended?
    case WasAccepted => e.Queued? || e.Contended?
  }

  /**
   The samples that met a fate, in order. A send returns `Ok` exactly when it queues its sample or drops it on
   contention.
   */
  function Samples<T>(log: seq<Event<T>>, f: Fate): (vs: seq<T>)
  {
    if log == [] then []
    else
      var e := log[|log| - 1];
      Samples(log[..|log| - 1], f) + (if Meets(e, f) then [e.value] else [])
  }

  /** For each received sample, its position in the order of queueing. */
  function Positions<T>(log: seq<Event<T>>): (ps: seq<nat>)
  {
    if log == [] then []
    else
      var before := log[..|log| - 1];
      Positions(before) + (if log[|log| - 1].Received? then [|Read(before).taken|] else [])
  }

  lemma {:induction false} AcceptedAddUp<T>(log: seq<Event<T>>)
    ensures multiset(Samples(log, WasAccepted)) == multiset(Read(log).queued) + multiset(Samples(log, WasContended))
  {
    if log != [] {
      var e := log[|log| - 1];
      AcceptedAddUp(log[..|log| - 1]);
      QueuedStep(log);
      FateStep(log, WasContended);
      FateStep(log, WasAccepted);
      assert One(e, Meets(e, WasAccepted)) == One(e, e.Queued?) + One(e, Meets(e, WasContended));
    }
  }

  lemma QueuedStep<T>(log: seq<Event<T>>)
    requires log != []
    ensures var (before, e) := (log[..|log| - 1], log[|log| - 1]);
            multiset(Read(log).queued) == multiset(Read(before).queued) + One(e, e.Queued?)
  {
    var (h, e) := (Read(log[..|log| - 1]), log[|log| - 1]);
    AddQueued(h, e);
    MultisetStep(h.queued, Add(h, [e]).queued, e, e.Queued?);
  }

  lemma AddQueued<T>(h: History<T>, e: Event<T>)
    ensures Add(h, [e]).queued == h.queued + if e.Queued? then [e.value] else []
  {
    if !e.Queued? { assert h.queued + [] == h.queued; }
  }

  lemma TakenStep<T>(log: seq<Event<T>>)
    requires log != []
    ensures var (before, e) := (log[..|log| - 1], log[|log| - 1]);
            multiset(Read(log).taken) == multiset(Read(before).taken) + One(e, e.Received? || e.Evicted?)
  {
    var (h, e) := (Read(log[..|log| - 1]), log[|log| - 1]);
    var h' := Add(h, [e]);
    assert h.taken + [] == h.taken;
    MultisetStep(h.taken, h'.taken, e, e.Received? || e.Evicted?);
  }

  lemma FateStep<T>(log: seq<Event<T>>, f: Fate)
    requires log != []
    ensures var (before, e) := (log[..|log| - 1], log[|log| - 1]);
            multiset(Samples(log, f)) == multiset(Samples(before, f)) + One(e, Meets(e, f))
  {
    var (before, e) := (log[..|log| - 1], log[|log| - 1]);
    MultisetStep(Samples(before, f), Samples(log, f), e, Meets(e, f));
  }

  /** The samples an event adds to a list, one or none. */
  function One<T>(e: Event<T>, takes: bool): (vs: multiset<T>)
    requires takes ==> e.Queued? || e.Contended? || e.Received? || e.Evicted?
  {
    if takes then multiset{e.value} else multiset{}
  }

  lemma MultisetStep<T>(before: seq<T>, after: seq<T>, e: Event<T>, takes: bool)
    requires takes ==> e.Queued? || e.Contended? || e.Received? || e.Evicted?
    requires after == before + if takes then [e.value] else []
    ensures multiset(after) == multiset(before) + One(e, takes)
  {
  }

  lemma {:induction false} TakenAddUp<T>(log: seq<Event<T>>)
    ensures multiset(Read(log).taken) == multiset(Samples(log, WasReceived)) + multiset(Samples(log, WasEvicted))
  {
    if log != [] {
      var e := log[|log| - 1];
      TakenAddUp(log[..|log| - 1]);
      TakenStep(log);
      FateStep(log, WasReceived);
      FateStep(log, WasEvicted);
      assert One(e, e.Received? || e.Evicted?) == One(e, Meets(e, WasReceived)) + One(e, Meets(e, WasEvicted));
    }
  }

  lemma {:induction false} ReceivedInOrder<T>(log: seq<Event<T>>)
    ensures Increasing(Positions(log), |Read(log).taken|)
    ensures |Positions(log)| == |Samples(log, WasReceived)|
    ensures forall k | 0 <= k < |Positions(log)| :: Samples(log, WasReceived)[k] == Read(log).taken[Positions(log)[k]]
  {
    if log != [] {
      ReceivedInOrder(log[..|log| - 1]);
    }
  }

  predicate Increasing(ps: seq<nat>, bound: nat)
  {
    && (forall k | 0 <= k < |ps| :: ps[k] < bound)
    && (forall k, l | 0 <= k < l < |ps| :: ps[k] < ps[l])
  }

  /**
   In every run: every sample whose send returned `Ok` was received, evicted, dropped on contention or is still
   queued, each exactly once; samples leave the queue in the order they entered it, so an evicted one is the oldest;
   and the received ones are the samples queued at strictly increasing positions.
   */
  lemma Conservation<T>(capacity: nat, modulus: nat, receivers: nat, actions: seq<Action<T>>) returns (left: seq<T>)
    requires 0 < capacity < modulus && modulus % capacity == 0
    ensures var log := Run(Init<T>(capacity, receivers), actions, modulus).1;
            var h := Read(log);
            && h.queued == h.taken + left && |left| <= capacity
            && multiset(Samples(log, WasAccepted)) ==
               multiset(Samples(log, WasReceived)) + multiset(Samples(log, WasEvicted))
                 + multiset(Samples(log, WasContended)) + multiset(left)
            && Increasing(Positions(log), |h.queued|)
            && |Positions(log)| == |Samples(log, WasReceived)|
            && forall k | 0 <= k < |Positions(log)| :: Samples(log, WasReceived)[k] == h.queued[Positions(log)[k]]
  {
    RunGood(capacity, modulus, receivers, actions);
    var (t, log) := Run(Init<T>(capacity, receivers), actions, modulus);
    var h := Read(log);
    ReceivedInOrder(log);
    left := h.queued[|h.taken|..];
    assert h.queued == h.taken + left;
    AddUp(log, left);
  }

  lemma AddUp<T>(log: seq<Event<T>>, left: seq<T>)
    requires Read(log).queued == Read(log).taken + left
    ensures multiset(Samples(log, WasAccepted)) ==
            multiset(Samples(log, WasReceived)) + multiset(Samples(log, WasEvicted))
            + multiset(Samples(log, WasContended)) + multiset(left)
  {
    AcceptedAddUp(log);
    TakenAddUp(log);
  }

  /**
   The end of the stream, exactly: when some `recv` ends the stream after a run, the samples stranded in the queue are
   those queued since a `recv` last found it empty if that `recv` checked right after an empty pop, and none
   otherwise. So the end of the stream strands a sample if and only if one was queued between an empty pop and the
   check that follows it.
   */
  lemma EndStrandsExactly<T>(capacity: nat, modulus: nat, receivers: nat, actions: seq<Action<T>>, j: nat)
    requires 0 < capacity < modulus && modulus % capacity == 0
    requires var t := Run(Init<T>(capacity, receivers), actions, modulus).0;
             j < |t.receivers| && ReceiverNext(t, j, modulus).1 == [Ended]
    ensures var (t, log) := Run(Init<T>(capacity, receivers), actions, modulus);
            var h := Read(log);
            && (forall i | 0 <= i < |t.senders| :: !Live(t.senders[i]))
            && (h.queued != h.taken <==> t.receivers[j].Checking? && h.sinceEmpty != [])
            && (t.receivers[j].Checking? ==> h.queued == h.taken + h.sinceEmpty)
  {
    RunGood(capacity, modulus, receivers, actions);
    var (t, log) := Run(Init<T>(capacity, receivers), actions, modulus);
    EndAccount(t, j, modulus, Read(log));
    forall i | 0 <= i < |t.senders| ensures !Live(t.senders[i]) {
      if Live(t.senders[i]) { LiveCounted(t.senders, i); }
    }
  }

  // ----- a run that strands a sample

  ghost predicate Reachable<T(!new)>(t: Track<T>, log: seq<Event<T>>, modulus: nat)
    requires modulus > 0
  {
    exists actions :: Run(Init(1, 1), actions, modulus) == (t, log)
  }

  lemma Then<T(!new)>(t: Track<T>, log: seq<Event<T>>, a: Action<T>, modulus: nat, t': Track<T>, log': seq<Event<T>>)
    requires modulus > 0 && |t.ring.slots| > 0 && Reachable(t, log, modulus)
    requires Step(t, a, modulus).0 == t'
    requires log + Step(t, a, modulus).1 == log'
    ensures Reachable(t', log', modulus)
  {
    var actions :| Run(Init(1, 1), actions, modulus) == (t, log);
    assert (actions + [a])[..|actions|] == actions;
    assert Run(Init(1, 1), actions + [a], modulus) == (t', log');
  }

  /** A track of capacity one with one source and one `recv` that holds `pop_lock`, about to look at `source_closed`. */
  function Stalled<T>(ring: Ring<T>, sender: Sender<T>, pushLock: Option<nat>): (t: Track<T>)
  {
    Track(ring, [sender], [Checking], pushLock, Some(ByReceiver(0)), 1, false, false)
  }

  lemma EnterRecv<T(!new)>(modulus: nat)
    requires modulus > 1
    ensures Reachable<T>(Init(1, 1).(receivers := [Popping], popLock := Some(ByReceiver(0))), [], modulus)
  {
    var t := Init<T>(1, 1);
    assert Run(t, [], modulus) == (t, []);
    var t1 := t.(receivers := [Entering]);
    Then(t, [], ReceiverStep(0), modulus, t1, []);
    Then(t1, [], ReceiverStep(0), modulus, t.(receivers := [Popping], popLock := Some(ByReceiver(0))), []);
  }

  lemma StallAfterEmptyPop<T(!new)>(modulus: nat)
    requires modulus > 1
    ensures Reachable<T>(Stalled(SpscRing.Init(1), Free, None), [EmptySeen], modulus)
  {
    EnterRecv<T>(modulus);
    var t := Init<T>(1, 1).(receivers := [Popping], popLock := Some(ByReceiver(0)));
    var t1 := t.(ring := t.ring.(consumer := HeadLoaded(0)));
    Then(t, [], ReceiverStep(0), modulus, t1, []);
    Then(t1, [], ReceiverStep(0), modulus, Stalled(SpscRing.Init(1), Free, None), [EmptySeen]);
  }

  lemma CallWhileStalled<T(!new)>(v: T, modulus: nat)
    requires modulus > 1
    ensures Reachable(Stalled(SpscRing.Init(1).(producer := TailLoaded(v, 0)), Pushing(v, false), Some(0)),
            [EmptySeen], modulus)
  {
    StallAfterEmptyPop<T>(modulus);
    var log: seq<Event<T>> := [EmptySeen];
    var t := Stalled(SpscRing.Init(1), Free, None);
    var t1 := Stalled(SpscRing.Init(1), Checked(v, false), None);
    Then(t, log, Call(0, v, false), modulus, t1, log);
    var t2 := Stalled(SpscRing.Init(1), Pushing(v, false), Some(0));
    Then(t1, log, SenderStep(0), modulus, t2, log);
    Then(t2, log, SenderStep(0), modulus,
         Stalled(SpscRing.Init(1).(producer := TailLoaded(v, 0)), Pushing(v, false), Some(0)), log);
  }

  lemma PushWhileStalled<T(!new)>(v: T, modulus: nat)
    requires modulus > 1
    ensures Reachable(Stalled(Ring([Some(v)], 0, 0, SlotWritten(v, 0), PopIdle), Pushing(v, false), Some(0)),
            [EmptySeen], modulus)
  {
    CallWhileStalled(v, modulus);
    var log: seq<Event<T>> := [EmptySeen];
    var t := Stalled(SpscRing.Init(1).(producer := TailLoaded(v, 0)), Pushing(v, false), Some(0));
    var t1 := Stalled(SpscRing.Init(1).(producer := RoomFound(v, 0)), Pushing(v, false), Some(0));
    assert (0 - 0) % modulus == 0;
    Then(t, log, SenderStep(0), modulus, t1, log);
    Then(t1, log, SenderStep(0), modulus,
         Stalled(Ring([Some(v)], 0, 0, SlotWritten(v, 0), PopIdle), Pushing(v, false), Some(0)), log);
  }

  /**
   A concrete run that strands a sample: a `recv` pops nothing, then the last source queues a sample and is dropped,
   then that `recv` sees the source closed and ends the stream with the sample still queued.
   */
  lemma EndCanStrandASample<T(!new)>(v: T, modulus: nat)
    requires modulus > 1
    ensures exists actions :: var (t, log) := Run(Init(1, 1), actions, modulus);
                              t.ended && log == [EmptySeen, Queued(v), Ended] && t.ring.slots == [Some(v)]
  {
    PushWhileStalled(v, modulus);
    var written := Stalled(Ring([Some(v)], 0, 0, SlotWritten(v, 0), PopIdle), Pushing(v, false), Some(0));
    var ring := Ring([Some(v)], 0, 1, PushIdle, PopIdle);
    var log := [EmptySeen, Queued(v)];
    var t := Stalled(ring, Free, None);
    assert (0 + 1) % modulus == 1;
    Then(written, [EmptySeen], SenderStep(0), modulus, t, log);
    var t1 := Stalled(ring, Closing, None).(activeSenders := 0);
    Then(t, log, DropSender(0), modulus, t1, log);
    var t2 := Stalled(ring, Gone, None).(activeSenders := 0, sourceClosed := true);
    Then(t1, log, SenderStep(0), modulus, t2, log);
    var t3 := t2.(receivers := [Ready], popLock := None, ended := true);
    Then(t2, log, ReceiverStep(0), modulus, t3, [EmptySeen, Queued(v), Ended]);
    var actions :| Run(Init(1, 1), actions, modulus) == (t3, [EmptySeen, Queued(v), Ended]);
  }
}

/** The embedded watch channel (src/platform/sync_embedded.rs). Each operation holds one lock, so it is one step. */
module Watch {
  import opened Wrappers
  import opened Wakers

  /** The locked state with the version counter beside it, and the counter of live sender handles. */
  datatype State<T> = State(value: T, version: nat, wakers: seq<Task>, senderGone: bool, senders: nat)

  datatype Poll = Changed | Closed | Pending

  /** One poll of `changed()`: what it says and where the receiver's cursor goes. */
  function Polled<T>(s: State<T>, seen: nat): (r: (Poll, nat))
  {
    if s.version != seen then (Changed, s.version) else if s.senderGone then (Closed, seen) else (Pending, seen)
  }

  // ----- the code

  class Channel<T> {
    var value: T
    var version: nat
    var wakers: seq<Task>
    var senderGone: bool
    var senders: nat

    function Abstract(): (s: State<T>)
      reads this
    {
      State(value, version, wakers, senderGone, senders)
    }

    constructor (init: T)
      ensures Abstract() == State(init, 0, [], false, 1)
    {
      value, version, wakers, senderGone, senders := init, 0, [], false, 1;
    }

    method Send(v: T) returns (woken: seq<Task>)
      modifies this
      ensures Abstract() == old(Abstract()).(value := v, version := old(version) + 1, wakers := [])
              && woken == old(wakers)
    {
      value := v;
      version := version + 1;
      woken := wakers;
      wakers := [];
    }

    /** `send_if_modified`: `f` gives the new value and whether it reports a change. */
    method SendIfModified(f: T -> (T, bool)) returns (woken: seq<Task>)
      modifies this
      ensures var (v, changed) := f(old(value));
              if changed then Abstract() == old(Abstract()).(value := v, version := old(version) + 1, wakers := [])
                && woken == old(wakers)
              else Abstract() == old(Abstract()).(value := v) && woken == []
    {
      woken := [];
      var (v, changed) := f(value);
      value := v;
      if !changed {
        return;
      }
      version := version + 1;
      woken := wakers;
      wakers := [];
    }

    method BorrowAndUpdate(rx: Cursor) returns (v: T)
      modifies rx
      ensures v == value && rx.seen == version
    {
      v := value;
      rx.seen := version;
    }

    method PollChanged(rx: Cursor, t: Task) returns (p: Poll)
      modifies rx, this`wakers
      ensures (p, rx.seen) == Polled(old(Abstract()), old(rx.seen))
      ensures wakers == if p.Pending? then Register(old(wakers), t) else old(wakers)
    {
      if version != rx.seen {
        rx.seen := version;
        return Changed;
      }
      if senderGone {
        return Closed;
      }
      if t !in wakers {
        wakers := wakers + [t];
      }
      p := Pending;
    }

    method ReleaseSender() returns (last: bool)
      requires senders > 0
      modifies this`senders
      ensures senders == old(senders) - 1 && last == (old(senders) == 1)
    {
      last := senders <= 1;
      senders := senders - 1;
    }

    method Close() returns (woken: seq<Task>)
      modifies this
      ensures Abstract() == old(Abstract()).(senderGone := true, wakers := []) && woken == old(wakers)
    {
      senderGone := true;
      woken := wakers;
      wakers := [];
    }
  }

  /** A receiver's own view of the version. */
  class Cursor {
    var seen: nat

    constructor (n: nat)
      ensures seen == n
    {
      seen := n;
    }
  }

  // ----- all runs

  /** A receiver; `pending` is the task of its last poll if that returned `Pending` and it was not woken since. */
  datatype Receiver = Receiver(seen: nat, pending: Option<Task>)

  datatype World<T> = World(channel: State<T>, receivers: map<nat, Receiver>, closing: bool)

  datatype Event<T> =
    | Send(value: T)
    | SendIfModified(value: T, changed: bool)
    | CloneSender
    | DropSender
    | CloseChannel
    | Subscribe(id: nat)
    | CloneReceiver(from: nat, id: nat)
    | DropReceiver(id: nat)
    | Borrow(id: nat)
    | BorrowAndUpdate(id: nat)
    | PollChanged(id: nat, task: Task)

  predicate Enabled<T>(w: World<T>, e: Event<T>)
  {
    match e
    case Send(_) => w.channel.senders > 0
    case SendIfModified(_, _) => w.channel.senders > 0
    case CloneSender => w.channel.senders > 0
    case DropSender => w.channel.senders > 0
    case CloseChannel => w.closing
    case Subscribe(id) => w.channel.senders > 0 && id !in w.receivers
    case CloneReceiver(from, id) => from in w.receivers && id !in w.receivers
    case DropReceiver(id) => id in w.receivers
    case Borrow(id) => id in w.receivers
    case BorrowAndUpdate(id) => id in w.receivers
    case PollChanged(id, _) => id in w.receivers
  }

  /** The events that publish a new version. */
  predicate Publishes<T>(e: Event<T>) { e.Send? || (e.SendIfModified? && e.changed) }

  function Woken<T>(w: World<T>, e: Event<T>): (ts: seq<Task>)
  {
    if Publishes(e) || e.CloseChannel? then w.channel.wakers else []
  }

  function AllAwake(rs: map<nat, Receiver>, woken: seq<Task>): (rs': map<nat, Receiver>)
  {
    map id | id in rs ::
      if rs[id].pending.Some? && rs[id].pending.value in woken then rs[id].(pending := None) else rs[id]
  }

  function Publish<T>(w: World<T>, v: T): (w': World<T>)
  {
    w.(channel := w.channel.(value := v, version := w.channel.version + 1, wakers := []),
      receivers := AllAwake(w.receivers, w.channel.wakers))
  }

  function Next<T>(w: World<T>, e: Event<T>): (w': World<T>)
    requires Enabled(w, e)
  {
    match e
    case Send(v) => Publish(w, v)
    case SendIfModified(v, changed) => if changed then Publish(w, v) else w.(channel := w.channel.(value := v))
    case CloneSender => w.(channel := w.channel.(senders := w.channel.senders + 1))
    case DropSender =>
      w.(channel := w.channel.(senders := w.channel.senders - 1), closing := w.closing || w.channel.senders == 1)
    case CloseChannel =>
      w.(channel := w.channel.(senderGone := true, wakers := []), receivers := AllAwake(w.receivers, w.channel.wakers),
        closing := false)
    case Subscribe(id) => w.(receivers := w.receivers[id := Receiver(w.channel.version, None)])
    case CloneReceiver(from, id) => w.(receivers := w.receivers[id := Receiver(w.receivers[from].seen, None)])
    case DropReceiver(id) => w.(receivers := w.receivers - {id})
    case Borrow(id) => w
    case BorrowAndUpdate(id) => w.(receivers := w.receivers[id := w.receivers[id].(seen := w.channel.version)])
    case PollChanged(id, t) =>
      var r := w.receivers[id];
      var (p, seen) := Polled(w.channel, r.seen);
      if p.Pending? then
        w.(channel := w.channel.(wakers := Register(w.channel.wakers, t)),
          receivers := w.receivers[id := Receiver(seen, Some(t))])
      else w.(receivers := w.receivers[id := r.(seen := seen)])
  }

  function Begin<T>(init: T): (w: World<T>) { World(State(init, 0, [], false, 1), map[0 := Receiver(0, None)], false) }

  // ----- what every run keeps

  ghost predicate ReceiverOk<T>(s: State<T>, r: Receiver)
  {
    r.seen <= s.version && (r.pending.Some? ==> r.pending.value in s.wakers && r.seen == s.version && !s.senderGone)
  }

  ghost predicate Inv<T>(w: World<T>)
  {
    && (forall id {:trigger w.receivers[id]} | id in w.receivers :: ReceiverOk(w.channel, w.receivers[id]))
    && (w.channel.senderGone || w.closing ==> w.channel.senders == 0)
  }

  lemma StepKeeps<T>(w: World<T>, e: Event<T>)
    requires Inv(w) && Enabled(w, e)
    ensures Inv(Next(w, e))
  {
    var w' := Next(w, e);
    forall id {:trigger w'.receivers[id]} | id in w'.receivers ensures ReceiverOk(w'.channel, w'.receivers[id]) {
      if e.CloneReceiver? && id == e.id { assert ReceiverOk(w.channel, w.receivers[e.from]); }
      else if !(e.Subscribe? && id == e.id) { assert ReceiverOk(w.channel, w.receivers[id]); }
    }
  }

  ghost predicate Runs<T>(init: T, ws: seq<World<T>>, es: seq<Event<T>>)
  {
    && |ws| == |es| + 1 && ws[0] == Begin(init)
    && forall i {:trigger es[i]} | 0 <= i < |es| :: Enabled(ws[i], es[i]) && ws[i + 1] == Next(ws[i], es[i])
  }

  lemma {:induction false} RunKeeps<T>(init: T, ws: seq<World<T>>, es: seq<Event<T>>, n: nat)
    requires Runs(init, ws, es) && n <= |es|
    ensures Inv(ws[n])
  {
    if n > 0 {
      RunKeeps(init, ws, es, n - 1);
      assert Enabled(ws[n - 1], es[n - 1]);
      StepKeeps(ws[n - 1], es[n - 1]);
    }
  }

  /** A receiver left pending has its task woken by every later version and by the close. */
  lemma PendingIsWoken<T>(init: T, ws: seq<World<T>>, es: seq<Event<T>>, n: nat, id: nat)
    requires Runs(init, ws, es) && n < |es| && id in ws[n].receivers && ws[n].receivers[id].pending.Some?
    requires Publishes(es[n]) || es[n].CloseChannel?
    ensures ws[n].receivers[id].pending.value in Woken(ws[n], es[n])
  {
    RunKeeps(init, ws, es, n);
    assert ReceiverOk(ws[n].channel, ws[n].receivers[id]);
  }

  /**
   A receiver that polled pending stays pending, and registered, until a version is published or the channel closes.
   */
  lemma {:induction false} StaysPending<T>(init: T, ws: seq<World<T>>, es: seq<Event<T>>, n: nat, m: nat, id: nat,
                                           t: Task)
    requires Runs(init, ws, es) && n < m <= |es| && es[n] == PollChanged(id, t)
             && Polled(ws[n].channel, ws[n].receivers[id].seen).0.Pending?
    requires forall i {:trigger es[i]} | n < i < m :: !Publishes(es[i]) && !es[i].CloseChannel? && !Involves(es[i], id)
    ensures id in ws[m].receivers && ws[m].receivers[id].pending == Some(t)
  {
    assert Enabled(ws[m - 1], es[m - 1]);
    if m > n + 1 {
      StaysPending(init, ws, es, n, m - 1, id, t);
      assert !Involves(es[m - 1], id);
    }
  }

  /** The receiver itself observes, or is dropped. */
  predicate Involves<T>(e: Event<T>, id: nat)
  {
    || (e.BorrowAndUpdate? && e.id == id)
    || (e.PollChanged? && e.id == id)
    || (e.DropReceiver? && e.id == id)
  }

  /** There is something this receiver has not seen. */
  predicate HasChange<T>(w: World<T>, id: nat) { id in w.receivers && w.receivers[id].seen < w.channel.version }

  /** Publishing makes every receiver's next poll ready. */
  lemma PublishReachesAll<T>(init: T, ws: seq<World<T>>, es: seq<Event<T>>, n: nat, id: nat)
    requires Runs(init, ws, es) && n < |es| && Publishes(es[n]) && id in ws[n].receivers
    ensures HasChange(ws[n + 1], id)
  {
    RunKeeps(init, ws, es, n);
    assert Enabled(ws[n], es[n]);
    assert ReceiverOk(ws[n].channel, ws[n].receivers[id]);
  }

  /** No receiver's observation consumes another's: what one has not seen stays unseen until it looks itself. */
  lemma {:induction false} ChangeIsNotStolen<T>(init: T, ws: seq<World<T>>, es: seq<Event<T>>, n: nat, m: nat, id: nat)
    requires Runs(init, ws, es) && n <= m <= |es| && HasChange(ws[n], id)
    requires forall i {:trigger es[i]} | n <= i < m :: !Involves(es[i], id)
    ensures HasChange(ws[m], id) && Polled(ws[m].channel, ws[m].receivers[id].seen).0 == Changed
  {
    if m > n {
      ChangeIsNotStolen(init, ws, es, n, m - 1, id);
      assert Enabled(ws[m - 1], es[m - 1]);
      assert !Involves(es[m - 1], id);
    }
  }

  lemma {:induction false} GoneIffClosed<T>(init: T, ws: seq<World<T>>, es: seq<Event<T>>, n: nat)
    requires Runs(init, ws, es) && n <= |es|
    ensures ws[n].channel.senderGone <==> exists c :: 0 <= c < n && es[c].CloseChannel?
  {
    if n > 0 {
      GoneIffClosed(init, ws, es, n - 1);
      assert Enabled(ws[n - 1], es[n - 1]);
      assert ws[n].channel.senderGone <==> ws[n - 1].channel.senderGone || es[n - 1].CloseChannel?;
    }
  }

  /** What was published while the receiver existed is unseen until it looks. */
  lemma UnseenUntilLooked<T>(init: T, ws: seq<World<T>>, es: seq<Event<T>>, k: nat, n: nat, id: nat)
    requires Runs(init, ws, es) && k < n <= |es| && Publishes(es[k]) && id in ws[k].receivers
    requires forall i {:trigger es[i]} | k < i < n :: !Involves(es[i], id)
    ensures HasChange(ws[n], id)
  {
    PublishReachesAll(init, ws, es, k, id);
    ChangeIsNotStolen(init, ws, es, k + 1, n, id);
  }

  /**
   In every run a poll says `Closed` exactly when the channel was closed before and the receiver has no unseen
   version. Then the receiver has looked, or was subscribed anew, after each version published in its lifetime, and
   none follows.
   */
  lemma ClosedMeansSeen<T>(init: T, ws: seq<World<T>>, es: seq<Event<T>>, n: nat, id: nat, t: Task)
    requires Runs(init, ws, es) && n < |es| && es[n] == PollChanged(id, t)
    ensures id in ws[n].receivers
    ensures var closed := Polled(ws[n].channel, ws[n].receivers[id].seen).0.Closed?;
            && (closed <==> !HasChange(ws[n], id) && exists c :: 0 <= c < n && es[c].CloseChannel?)
            && (closed ==> forall k {:trigger es[k]} | 0 <= k < n && Publishes(es[k]) && id in ws[k].receivers ::
                             exists i :: k < i < n && Involves(es[i], id))
            && (closed ==> forall m {:trigger es[m]} | n < m < |es| :: !Publishes(es[m]))
  {
    assert Enabled(ws[n], es[n]);
    RunKeeps(init, ws, es, n);
    GoneIffClosed(init, ws, es, n);
    assert ReceiverOk(ws[n].channel, ws[n].receivers[id]);
    if Polled(ws[n].channel, ws[n].receivers[id].seen).0.Closed? {
      forall k | 0 <= k < n && Publishes(es[k]) && id in ws[k].receivers
        ensures exists i :: k < i < n && Involves(es[i], id)
      {
        if forall i {:trigger es[i]} | k < i < n :: !Involves(es[i], id) { UnseenUntilLooked(init, ws, es, k, n, id); }
      }
      forall m | n < m < |es| ensures !Publishes(es[m]) {
        RunKeeps(init, ws, es, m);
        GoneIffClosed(init, ws, es, m);
        assert Enabled(ws[m], es[m]);
      }
    }
  }
}

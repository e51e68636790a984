/** The embedded broadcast channel (src/platform/sync_embedded.rs). Each operation holds one lock, so it is one step. */
module Broadcast {
  import opened Wrappers
  import opened Wakers

  const HISTORY := 16

  /** The locked state, and the counter of live sender handles. */
  datatype State<T> = State(history: seq<(nat, T)>, nextSeq: nat, wakers: seq<Task>, senderGone: bool, senders: nat)

  datatype Outcome<T> = Value(value: T) | Lagged(count: nat) | Closed | Empty

  // ----- the operations on values

  function Trimmed<T>(h: seq<(nat, T)>): (r: seq<(nat, T)>) { if |h| > HISTORY then h[|h| - HISTORY..] else h }

  /** A value is accepted unless the channel is closed. Everyone registered is woken. */
  function Sent<T>(s: State<T>, v: T): (s': State<T>)
  {
    if s.senderGone then s
    else s.(history := Trimmed(s.history + [(s.nextSeq, v)]), nextSeq := s.nextSeq + 1, wakers := [])
  }

  function Find<T>(h: seq<(nat, T)>, want: nat): (i: Option<nat>)
    ensures i.Some? ==> i.value < |h| && h[i.value].0 == want
    ensures i.None? ==> forall k | 0 <= k < |h| :: h[k].0 != want
  {
    if h == [] then None
    else if h[0].0 == want then Some(0)
    else
      var rest := Find(h[1..], want);
      assert rest.None? ==> forall k | 1 <= k < |h| :: h[k] == h[1..][k - 1];
      if rest.Some? then Some(rest.value + 1) else None
  }

  /** What a receiver at cursor `want` gets, and where its cursor goes. */
  function Received<T>(s: State<T>, want: nat): (r: (Outcome<T>, nat))
  {
    if s.history != [] && want < s.history[0].0 then (Lagged(s.history[0].0 - want), s.history[0].0)
    else
      match Find(s.history, want)
      case Some(i) => (Value(s.history[i].1), want + 1)
      case None => (if s.senderGone then Closed else Empty, want)
  }

  // ----- the code

  method Position<T>(h: seq<(nat, T)>, want: nat) returns (i: Option<nat>)
    ensures i == Find(h, want)
  {
    var k: nat := 0;
    while k < |h|
      invariant k <= |h| && forall j | 0 <= j < k :: h[j].0 != want
    {
      if h[k].0 == want {
        FindAt(h, want, k);
        return Some(k);
      }
      k := k + 1;
    }
    i := None;
  }

  lemma {:induction false} FindAt<T>(h: seq<(nat, T)>, want: nat, k: nat)
    requires k < |h| && h[k].0 == want && forall j | 0 <= j < k :: h[j].0 != want
    ensures Find(h, want) == Some(k)
  {
    if k > 0 {
      forall j | 0 <= j < k - 1 ensures h[1..][j].0 != want { assert h[1..][j] == h[j + 1]; }
      FindAt(h[1..], want, k - 1);
    }
  }

  class Channel<T> {
    var history: seq<(nat, T)>
    var nextSeq: nat
    var wakers: seq<Task>
    var senderGone: bool
    var senders: nat

    function Abstract(): (s: State<T>)
      reads this
    {
      State(history, nextSeq, wakers, senderGone, senders)
    }

    constructor ()
      ensures Abstract() == State([], 0, [], false, 1)
    {
      history, nextSeq, wakers, senderGone, senders := [], 0, [], false, 1;
    }

    /** The tasks to wake once the lock is released. */
    method Send(v: T) returns (ok: bool, woken: seq<Task>)
      modifies this
      ensures Abstract() == Sent(old(Abstract()), v) && ok == !old(senderGone)
      ensures woken == if ok then old(wakers) else []
    {
      if senderGone {
        return false, [];
      }
      var was := history + [(nextSeq, v)];
      nextSeq := nextSeq + 1;
      history := was;
      assert was[0..] == was;
      while |history| > HISTORY
        invariant |history| <= |was| && history == was[|was| - |history|..]
        invariant |was| > HISTORY ==> |history| >= HISTORY
        invariant |was| <= HISTORY ==> history == was
        invariant nextSeq == old(nextSeq) + 1 && wakers == old(wakers) && !senderGone && senders == old(senders)
        decreases |history|
      {
        history := history[1..];
      }
      ok, woken := true, wakers;
      wakers := [];
    }

    method CloneSender()
      modifies this`senders
      ensures senders == old(senders) + 1
    {
      senders := senders + 1;
    }

    /** The counter part of dropping a sender; only the last handle goes on to close the channel. */
    method ReleaseSender() returns (last: bool)
      requires senders > 0
      modifies this`senders
      ensures senders == old(senders) - 1 && last == (old(senders) == 1)
    {
      last := senders <= 1;
      senders := senders - 1;
    }

    method Close() returns (woken: seq<Task>)
      modifies this
      ensures Abstract() == old(Abstract()).(senderGone := true, wakers := []) && woken == old(wakers)
    {
      senderGone := true;
      woken := wakers;
      wakers := [];
    }

    method TryRecv(rx: Cursor) returns (o: Outcome<T>)
      modifies rx
      ensures (o, rx.nextSeq) == Received(Abstract(), old(rx.nextSeq))
    {
      var want := rx.nextSeq;
      if history != [] && want < history[0].0 {
        rx.nextSeq := history[0].0;
        return Lagged(history[0].0 - want);
      }
      var pos := Position(history, want);
      if pos.Some? {
        rx.nextSeq := want + 1;
        return Value(history[pos.value].1);
      }
      o := if senderGone then Closed else Empty;
    }

    /** One poll of a receive future; `Empty` stands for `Poll::Pending`. */
    method Poll(rx: Cursor, t: Task) returns (o: Outcome<T>)
      modifies rx, this`wakers
      ensures (o, rx.nextSeq) == Received(old(Abstract()), old(rx.nextSeq))
      ensures wakers == if o.Empty? then Register(old(wakers), t) else old(wakers)
    {
      o := TryRecv(rx);
      if o.Empty? && t !in wakers {
        wakers := wakers + [t];
      }
    }
  }

  /** A receiver's own position. */
  class Cursor {
    var nextSeq: nat

    constructor (n: nat)
      ensures nextSeq == n
    {
      nextSeq := n;
    }
  }

  // ----- all runs

  /**
   A receiver, with its history: where it started, the positions delivered to it and how many it was told it missed;
   `pending` is the task of its last poll if that returned `Pending` and nothing was sent since.
   */
  datatype Receiver = Receiver(cursor: nat, start: nat, got: seq<nat>, missed: nat, pending: Option<Task>)

  /** Everything ever sent, and whether the last handle is between its counter step and closing. */
  datatype World<T> = World(channel: State<T>, sent: seq<T>, receivers: map<nat, Receiver>, closing: bool)

  datatype Event<T> =
    | Send(value: T)
    | CloneSender
    | DropSender
    | CloseChannel
    | Subscribe(id: nat)
    | CloneReceiver(from: nat, id: nat)
    | DropReceiver(id: nat)
    | TryRecv(id: nat)
    | Poll(id: nat, task: Task)

  /** Sender operations need a live handle. */
  predicate Enabled<T>(w: World<T>, e: Event<T>)
  {
    match e
    case Send(_) => w.channel.senders > 0
    case CloneSender => w.channel.senders > 0
    case DropSender => w.channel.senders > 0
    case CloseChannel => w.closing
    case Subscribe(id) => w.channel.senders > 0 && id !in w.receivers
    case CloneReceiver(from, id) => from in w.receivers && id !in w.receivers
    case DropReceiver(id) => id in w.receivers
    case TryRecv(id) => id in w.receivers
    case Poll(id, _) => id in w.receivers
  }

  function Woken<T>(w: World<T>, e: Event<T>): (ts: seq<Task>)
  {
    if (e.Send? && !w.channel.senderGone) || e.CloseChannel? then w.channel.wakers else []
  }

  function Awake(r: Receiver, woken: seq<Task>): (r': Receiver)
  {
    if r.pending.Some? && r.pending.value in woken then r.(pending := None) else r
  }

  function AllAwake(rs: map<nat, Receiver>, woken: seq<Task>): (rs': map<nat, Receiver>)
  {
    map id | id in rs :: Awake(rs[id], woken)
  }

  function Took<T>(r: Receiver, o: Outcome<T>, cursor: nat): (r': Receiver)
  {
    match o
    case Value(_) => r.(cursor := cursor, got := r.got + [r.cursor], pending := None)
    case Lagged(n) => r.(cursor := cursor, missed := r.missed + n, pending := None)
    case Closed => r.(cursor := cursor)
    case Empty => r.(cursor := cursor)
  }

  function Next<T>(w: World<T>, e: Event<T>): (w': World<T>)
    requires Enabled(w, e)
  {
    match e
    case Send(v) =>
      w.(channel := Sent(w.channel, v), sent := if w.channel.senderGone then w.sent else w.sent + [v],
         receivers := AllAwake(w.receivers, Woken(w, e)))
    case CloneSender => w.(channel := w.channel.(senders := w.channel.senders + 1))
    case DropSender =>
      w.(channel := w.channel.(senders := w.channel.senders - 1), closing := w.closing || w.channel.senders == 1)
    case CloseChannel =>
      w.(channel := w.channel.(senderGone := true, wakers := []), receivers := AllAwake(w.receivers, Woken(w, e)),
        closing := false)
    case Subscribe(id) =>
      w.(receivers := w.receivers[id := Receiver(w.channel.nextSeq, w.channel.nextSeq, [], 0, None)])
    case CloneReceiver(from, id) =>
      w.(receivers := w.receivers[id := Receiver(w.receivers[from].cursor, w.receivers[from].cursor, [], 0, None)])
    case DropReceiver(id) => w.(receivers := w.receivers - {id})
    case TryRecv(id) =>
      var r := w.receivers[id];
      var (o, cursor) := Received(w.channel, r.cursor);
      w.(receivers := w.receivers[id := Took(r, o, cursor)])
    case Poll(id, t) =>
      var r := w.receivers[id];
      var (o, cursor) := Received(w.channel, r.cursor);
      var took := Took(r, o, cursor);
      if o.Empty? then
        w.(channel := w.channel.(wakers := Register(w.channel.wakers, t)),
          receivers := w.receivers[id := took.(pending := Some(t))])
      else w.(receivers := w.receivers[id := took])
  }

  function Begin<T>(): (w: World<T>)
  {
    World(State([], 0, [], false, 1), [], map[0 := Receiver(0, 0, [], 0, None)], false)
  }

  // ----- what every run keeps

  /** The history is the newest sixteen values, numbered as they were sent. */
  ghost predicate HistoryOk<T>(s: State<T>, sent: seq<T>)
  {
    && s.nextSeq == |sent| && |s.history| == (if |sent| < HISTORY then |sent| else HISTORY)
    && forall i {:trigger s.history[i]} | 0 <= i < |s.history| ::
      s.history[i] == (|sent| - |s.history| + i, sent[|sent| - |s.history| + i])
  }

  predicate Increasing(ps: seq<nat>) { forall i, j | 0 <= i < j < |ps| :: ps[i] < ps[j] }

  /**
   A receiver's deliveries are in order and without repeats, and with the missed ones they add up to its cursor's way.
   */
  ghost predicate ReceiverOk<T>(s: State<T>, r: Receiver)
  {
    && r.start <= r.cursor <= s.nextSeq && r.cursor - r.start == |r.got| + r.missed
    && Increasing(r.got) && (forall i | 0 <= i < |r.got| :: r.start <= r.got[i] < r.cursor)
    && (r.pending.Some? ==> r.pending.value in s.wakers && r.cursor == s.nextSeq && !s.senderGone)
  }

  ghost predicate ReceiversOk<T>(s: State<T>, rs: map<nat, Receiver>)
  {
    forall id {:trigger rs[id]} | id in rs :: ReceiverOk(s, rs[id])
  }

  ghost predicate Inv<T>(w: World<T>)
  {
    && HistoryOk(w.channel, w.sent) && ReceiversOk(w.channel, w.receivers) && Unique(w.channel.wakers)
    && (w.channel.senderGone || w.closing ==> w.channel.senders == 0) && !(w.channel.senderGone && w.closing)
  }

  /** What a receiver is told, given the whole history of the channel. */
  lemma ReceivedMeans<T>(s: State<T>, sent: seq<T>, want: nat)
    requires HistoryOk(s, sent) && want <= s.nextSeq
    ensures var (o, cursor) := Received(s, want);
            match o
            case Value(v) => want < |sent| && v == sent[want] && cursor == want + 1
            case Lagged(n) => n > 0 && cursor == want + n <= |sent| && n == |sent| - HISTORY - want
            case Closed => want == |sent| && s.senderGone && cursor == want
            case Empty => want == |sent| && !s.senderGone && cursor == want
  {
    if s.history != [] {
      assert s.history[0].0 == |sent| - |s.history|;
      if s.history[0].0 <= want < |sent| {
        var i := want - s.history[0].0;
        assert s.history[i].0 == want;
      }
    }
    var f := Find(s.history, want);
    if f.Some? { assert s.history[f.value].1 == sent[|sent| - |s.history| + f.value]; }
  }

  lemma SentHistory<T>(s: State<T>, sent: seq<T>, v: T)
    requires HistoryOk(s, sent) && !s.senderGone
    ensures HistoryOk(Sent(s, v), sent + [v])
  {
    var h := s.history + [(s.nextSeq, v)];
    forall i | 0 <= i < |h| ensures h[i] == (|sent| + 1 - |h| + i, (sent + [v])[|sent| + 1 - |h| + i]) {
      if i < |s.history| { assert s.history[i] == (|sent| - |s.history| + i, sent[|sent| - |s.history| + i]); }
    }
  }

  /** Waking everyone registered leaves nobody pending. */
  lemma AllAwakeOk<T>(s: State<T>, s': State<T>, rs: map<nat, Receiver>)
    requires ReceiversOk(s, rs) && s'.nextSeq >= s.nextSeq
    ensures ReceiversOk(s', AllAwake(rs, s.wakers))
    ensures forall id | id in rs && rs[id].pending.Some? :: rs[id].pending.value in s.wakers
  {
    forall id {:trigger rs[id]} | id in rs ensures ReceiverOk(s', Awake(rs[id], s.wakers)) {
      assert ReceiverOk(s, rs[id]);
    }
  }

  lemma TookOk<T>(s: State<T>, sent: seq<T>, r: Receiver)
    requires HistoryOk(s, sent) && ReceiverOk(s, r)
    ensures var (o, cursor) := Received(s, r.cursor); ReceiverOk(s, Took(r, o, cursor))
  {
    ReceivedMeans(s, sent, r.cursor);
  }

  lemma MoreWakers<T>(s: State<T>, t: Task, rs: map<nat, Receiver>)
    requires ReceiversOk(s, rs)
    ensures ReceiversOk(s.(wakers := Register(s.wakers, t)), rs)
  {
    var s' := s.(wakers := Register(s.wakers, t));
    forall id {:trigger rs[id]} | id in rs ensures ReceiverOk(s', rs[id]) { assert ReceiverOk(s, rs[id]); }
  }

  lemma OneMore<T>(s: State<T>, rs: map<nat, Receiver>, id: nat, r: Receiver)
    requires ReceiversOk(s, rs) && ReceiverOk(s, r)
    ensures ReceiversOk(s, rs[id := r])
  {
  }

  lemma ReceiveKeeps<T>(w: World<T>, id: nat, t: Option<Task>)
    requires Inv(w) && id in w.receivers
    ensures Inv(Next(w, if t.Some? then Poll(id, t.value) else TryRecv(id)))
  {
    var r := w.receivers[id];
    assert ReceiverOk(w.channel, r);
    TookOk(w.channel, w.sent, r);
    ReceivedMeans(w.channel, w.sent, r.cursor);
    var (o, cursor) := Received(w.channel, r.cursor);
    if t.Some? && o.Empty? {
      var s' := w.channel.(wakers := Register(w.channel.wakers, t.value));
      MoreWakers(w.channel, t.value, w.receivers);
      OneMore(s', w.receivers, id, Took(r, o, cursor).(pending := t));
    } else {
      OneMore(w.channel, w.receivers, id, Took(r, o, cursor));
    }
  }

  /** The pending receivers are exactly among those a send or a close wakes. */
  lemma WakeKeeps<T>(w: World<T>, e: Event<T>)
    requires Inv(w) && Enabled(w, e) && (e.Send? || e.CloseChannel?)
    ensures Inv(Next(w, e))
  {
    var s' := Next(w, e).channel;
    if e.Send? { SentHistory(w.channel, w.sent, e.value); }
    AllAwakeOk(w.channel, s', w.receivers);
  }

  lemma StepKeeps<T>(w: World<T>, e: Event<T>)
    requires Inv(w) && Enabled(w, e)
    ensures Inv(Next(w, e))
  {
    match e
    case Send(_) => WakeKeeps(w, e);
    case CloseChannel => WakeKeeps(w, e);
    case TryRecv(id) => ReceiveKeeps(w, id, None);
    case Poll(id, t) => ReceiveKeeps(w, id, Some(t));
    case Subscribe(id) =>
      OneMore(w.channel, w.receivers, id, Receiver(w.channel.nextSeq, w.channel.nextSeq, [], 0, None));
    case CloneReceiver(from, id) =>
      assert ReceiverOk(w.channel, w.receivers[from]);
      OneMore(w.channel, w.receivers, id, Receiver(w.receivers[from].cursor, w.receivers[from].cursor, [], 0, None));
    case DropReceiver(id) =>
      forall k {:trigger w.receivers[k]} | k in w.receivers - {id} ensures ReceiverOk(w.channel, w.receivers[k]) { }
    case CloneSender => CounterKeeps(w.channel, w.channel.(senders := w.channel.senders + 1), w.receivers);
    case DropSender => CounterKeeps(w.channel, w.channel.(senders := w.channel.senders - 1), w.receivers);
  }

  lemma CounterKeeps<T>(s: State<T>, s': State<T>, rs: map<nat, Receiver>)
    requires ReceiversOk(s, rs) && s' == s.(senders := s'.senders)
    ensures ReceiversOk(s', rs)
  {
    forall id {:trigger rs[id]} | id in rs ensures ReceiverOk(s', rs[id]) { assert ReceiverOk(s, rs[id]); }
  }

  /** A run: each event enabled where it happens. */
  ghost predicate Runs<T>(ws: seq<World<T>>, es: seq<Event<T>>)
  {
    && |ws| == |es| + 1 && ws[0] == Begin()
    && forall i {:trigger es[i]} | 0 <= i < |es| :: Enabled(ws[i], es[i]) && ws[i + 1] == Next(ws[i], es[i])
  }

  lemma {:induction false} RunKeeps<T>(ws: seq<World<T>>, es: seq<Event<T>>, n: nat)
    requires Runs(ws, es) && n <= |es|
    ensures Inv(ws[n])
  {
    if n > 0 {
      RunKeeps(ws, es, n - 1);
      assert Enabled(ws[n - 1], es[n - 1]);
      StepKeeps(ws[n - 1], es[n - 1]);
    }
  }

  /**
   Over all runs: a receiver that was told nothing is there has its task woken by the next send and by the close; a
   send from a live handle succeeds; what a receiver is given is the value sent at its cursor, and what it is told to
   have missed is exactly what the history has dropped; it is told `Closed` only when it has been given or told about
   everything sent.
   */
  lemma RunPromises<T>(ws: seq<World<T>>, es: seq<Event<T>>, n: nat, id: nat)
    requires Runs(ws, es) && n < |es| && id in ws[n].receivers
    ensures var r := ws[n].receivers[id];
            && (es[n].Send? ==> !ws[n].channel.senderGone)
            && (es[n].Send? || es[n].CloseChannel? ==> r.pending.Some? ==> r.pending.value in Woken(ws[n], es[n]))
            && (match Received(ws[n].channel, r.cursor).0
                case Value(v) => r.cursor < |ws[n].sent| && v == ws[n].sent[r.cursor]
                case Lagged(k) => k > 0 && r.cursor + k + HISTORY == |ws[n].sent|
                case Closed => ws[n].channel.senderGone && r.cursor == |ws[n].sent|
                case Empty => !ws[n].channel.senderGone && r.cursor == |ws[n].sent|)
            && r.cursor - r.start == |r.got| + r.missed && Increasing(r.got)
  {
    var w := ws[n];
    RunKeeps(ws, es, n);
    assert Enabled(w, es[n]);
    assert ReceiverOk(w.channel, w.receivers[id]);
    ReceivedMeans(w.channel, w.sent, w.receivers[id].cursor);
  }
}

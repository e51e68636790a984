/** The jitter buffer: reordering by 16-bit sequence number (src/media/jitter_buffer.rs). Time is a parameter. */
module JitterBuffer {
  import opened Wrappers
  import opened Bytes
  import Modular

  const MAX_SEQ_GAP := 64

  datatype Kind = Audio | Video

  /** `index` is the sender's count of packets, of which the sequence number is the low half; no operation reads it. */
  datatype Sample = Sample(kind: Kind, sequence: Option<U16>, index: int, timestamp: U32, ssrc: Option<U32>,
                           marker: bool, clockRate: U32, data: seq<Byte>)

  datatype Buffered = Buffered(sample: Sample, arrival: nat)

  type Samples = map<U16, Buffered>

  datatype Config = Config(minDelay: nat, maxDelay: nat, capacity: nat)

  datatype State = State(samples: Samples, last: Option<U16>, lastTimestamp: Option<U32>,
                         lastSsrc: Option<U32>)

  const EMPTY := State(map[], None, None, None)

  predicate IsNewer(sequence: U16, last: U16) { sequence != last && Sub16(sequence, last) < 32768 }

  // ----- an ordered map

  lemma {:induction false} MinExists(keys: set<U16>) returns (k: U16)
    requires keys != {}
    ensures k in keys && forall j | j in keys :: k <= j
  {
    var x :| x in keys;
    var rest := keys - {x};
    k := x;
    if rest == {} {
      assert keys == {x};
    } else {
      var y := MinExists(rest);
      k := if x < y then x else y;
      forall j | j in keys ensures k <= j { assert j == x || j in rest; }
    }
  }

  predicate IsMin(keys: set<U16>, k: U16) { k in keys && forall j | j in keys :: k <= j }

  function Min(keys: set<U16>): (k: U16)
    requires keys != {}
    ensures IsMin(keys, k)
  {
    assert exists k :: IsMin(keys, k) by { var m := MinExists(keys); assert IsMin(keys, m); }
    var k :| IsMin(keys, k);
    k
  }

  function Max(keys: set<U16>): (k: U16)
    requires keys != {}
    ensures k in keys && forall j | j in keys :: j <= k
  {
    var mirrored := set j | j in keys :: (0xFFFF - j) as U16;
    assert mirrored != {} by { var j :| j in keys; assert 0xFFFF - j in mirrored; }
    var m := Min(mirrored);
    assert forall j | j in keys :: 0xFFFF - j in mirrored;
    0xFFFF - m
  }

  function From(keys: set<U16>, lo: U16): (r: set<U16>) { set k | k in keys && lo <= k }

  // ----- the next sequence number

  /** The sequence number `pop` would take. */
  function First(s: State): (k: Option<U16>)
  {
    var keys := s.samples.Keys;
    if keys == {} then None
    else if s.last.None? then
      if IsNewer(Min(keys), Max(keys)) then Some(Max(keys)) else Some(Min(keys))
    else
      var next := Add16(s.last.value, 1);
      if next > s.last.value then
        if From(keys, next) != {} then Some(Min(From(keys, next))) else Some(Min(keys))
      else Some(Min(keys))
  }

  lemma FirstIsBuffered(s: State)
    ensures First(s).Some? <==> s.samples.Keys != {}
    ensures First(s).Some? ==> First(s).value in s.samples
  {
    if s.samples.Keys != {} && s.last.Some? {
      var next := Add16(s.last.value, 1);
      if From(s.samples.Keys, next) != {} { assert Min(From(s.samples.Keys, next)) in s.samples.Keys; }
    }
  }

  /** Everything buffered is newer than what was delivered. */
  ghost predicate Ordered(s: State) { s.last.Some? ==> forall k | k in s.samples :: IsNewer(k, s.last.value) }

  /** With something delivered, the choice is the least modular distance ahead of it. */
  lemma FirstIsNearest(s: State, k: U16)
    requires s.last.Some? && Ordered(s) && k in s.samples
    ensures First(s).Some? && First(s).value in s.samples
    ensures Sub16(First(s).value, s.last.value) <= Sub16(k, s.last.value)
  {
    var keys, l := s.samples.Keys, s.last.value;
    FirstIsBuffered(s);
    assert k in keys;
    var f := First(s).value;
    assert IsNewer(k, l) && IsNewer(f, l);
    if l < 0xFFFF {
      assert Add16(l, 1) == l + 1;
      var ahead := From(keys, l + 1);
      if k > l { assert k in ahead; }
      if ahead != {} && k < l { Ahead(f, l); Behind(k, l); }
      else if k > l { Ahead(f, l); Ahead(k, l); }
      else { assert ahead == {}; assert f !in ahead; Behind(k, l); Behind(f, l); }
    } else {
      Behind(k, l);
      Behind(f, l);
    }
  }

  lemma Ahead(k: U16, l: U16)
    requires k >= l
    ensures Sub16(k, l) == k - l
  {
  }

  lemma Behind(k: U16, l: U16)
    requires k < l
    ensures Sub16(k, l) == 0x1_0000 + k - l
  {
  }

  // ----- pop

  function Age(b: Buffered, now: nat): (d: nat) { if now >= b.arrival then now - b.arrival else 0 }

  /** The delay the candidate `k` has to have spent in the buffer. */
  function Target(c: Config, s: State, k: U16): (d: nat)
  {
    if s.last.None? || k == Add16(s.last.value, 1) then c.minDelay else c.maxDelay
  }

  predicate Due(c: Config, s: State, now: nat)
  {
    FirstIsBuffered(s);
    First(s).Some? && Age(s.samples[First(s).value], now) >= Target(c, s, First(s).value)
  }

  function Popped(c: Config, s: State, now: nat): (r: (State, Option<Sample>))
  {
    FirstIsBuffered(s);
    if !Due(c, s, now) then (s, None)
    else
      var k := First(s).value;
      var sample := s.samples[k].sample;
      (s.(samples := s.samples - {k}, last := Some(k), lastTimestamp := Some(sample.timestamp)), Some(sample))
  }

  function NextPopWait(c: Config, s: State, now: nat): (d: Option<nat>)
  {
    FirstIsBuffered(s);
    if First(s).None? then None
    else
      var k := First(s).value;
      var age := Age(s.samples[k], now);
      if age >= Target(c, s, k) then Some(0) else Some(Target(c, s, k) - age)
  }

  /** `next_pop_wait` says zero exactly when `pop` would deliver, and nothing exactly when the buffer is empty. */
  lemma WaitIsZeroIff(c: Config, s: State, now: nat)
    ensures NextPopWait(c, s, now) == Some(0) <==> Popped(c, s, now).1.Some?
    ensures NextPopWait(c, s, now) == None <==> s.samples.Keys == {}
  {
    FirstIsBuffered(s);
  }

  /** After the stated wait, with nothing pushed in between, `pop` delivers. */
  lemma WaitIsEnough(c: Config, s: State, now: nat, later: nat)
    requires NextPopWait(c, s, now).Some? && later >= now + NextPopWait(c, s, now).value
    requires forall k | k in s.samples :: s.samples[k].arrival <= now
    ensures Popped(c, s, later).1.Some?
  {
    FirstIsBuffered(s);
  }

  /** A delivery goes forward from the one before, and leaves only newer samples behind. */
  lemma PopKeepsOrder(c: Config, s: State, now: nat)
    requires s.last.Some? && Ordered(s) && Popped(c, s, now).1.Some?
    ensures var s' := Popped(c, s, now).0;
            s'.last.Some? && IsNewer(s'.last.value, s.last.value) && Ordered(s')
  {
    FirstIsBuffered(s);
    var (l, f) := (s.last.value, First(s).value);
    assert f in s.samples;
    forall k | k in s.samples && k != f ensures IsNewer(k, f) {
      FirstIsNearest(s, k);
      Apart(l, f, k);
    }
  }

  lemma Apart(l: U16, f: U16, k: U16)
    requires IsNewer(f, l) && IsNewer(k, l) && f != k && Sub16(f, l) <= Sub16(k, l)
    ensures IsNewer(k, f)
  {
    if k >= l { Ahead(k, l); } else { Behind(k, l); }
    if f >= l { Ahead(f, l); } else { Behind(f, l); }
    if k >= f { Ahead(k, f); } else { Behind(k, f); }
  }

  // ----- the first delivery

  /** The lowest and the highest number are less than half a turn apart, or the highest is alone on the other side. */
  ghost predicate StartOk(keys: set<U16>)
    requires keys != {}
  {
    || Max(keys) - Min(keys) < 32768
    || forall k | k in keys && k != Max(keys) :: k < Max(keys) - 32768
  }

  /** With nothing delivered yet, the choice leaves only newer samples behind exactly under `StartOk`. */
  lemma StartIsOldestIff(s: State)
    requires s.last.None? && s.samples.Keys != {}
    ensures First(s).Some?
            && ((forall k | k in s.samples && k != First(s).value :: IsNewer(k, First(s).value))
                <==> StartOk(s.samples.Keys))
  {
    var keys := s.samples.Keys;
    var lo: int, hi: int := Min(keys), Max(keys);
    assert lo in s.samples && hi in s.samples;
    if lo < hi { Behind(lo, hi); Ahead(hi, lo); }
    forall k | k in keys
      ensures k != lo ==> (IsNewer(k, lo) <==> k - lo < 32768)
      ensures k != hi ==> (IsNewer(k, hi) <==> k < hi - 32768)
    {
      Ahead(k, lo);
      if k != hi { Behind(k, hi); }
    }
  }

  // ----- push

  function ClockRate(x: Sample): (r: U32)
  {
    match x.kind
    case Audio => if x.clockRate == 0 then 8000 else x.clockRate
    case Video => 90000
  }

  /** `clock_rate.saturating_mul(2)` for audio, five seconds for video. */
  function MaxJump(x: Sample): (r: U32)
  {
    match x.kind
    case Audio => if 2 * ClockRate(x) > 0xFFFF_FFFF then 0xFFFF_FFFF else 2 * ClockRate(x)
    case Video => 450000
  }

  function Sub32(a: int, b: int): (d: U32) { (a - b) % 0x1_0000_0000 }

  /** The timestamp jumps by more than is reasonable, forward or backward. */
  predicate Jumps(x: Sample, last: U32)
  {
    var d := Sub32(x.timestamp, last);
    (d > MaxJump(x) && d < 0x7FFF_FFFF) || (d > 0x7FFF_FFFF && Sub32(last, x.timestamp) > MaxJump(x))
  }

  /** A marker after half a second of silence. */
  predicate Talkspurt(x: Sample, last: U32)
  {
    var d := Sub32(x.timestamp, last);
    x.marker && d > ClockRate(x) / 2 && d < 0x7FFF_FFFF
  }

  datatype Decision = Drop | Restart | Store(clear: bool)

  function Decide(s: State, x: Sample, k: U16): (d: Decision)
  {
    if x.ssrc.Some? && s.lastSsrc.Some? && x.ssrc != s.lastSsrc then Restart
    else if s.last.Some? && !IsNewer(k, s.last.value) then Drop
    else if s.last.Some? && Sub16(k, s.last.value) > MAX_SEQ_GAP then Restart
    else if s.lastTimestamp.Some? && Jumps(x, s.lastTimestamp.value) then Restart
    else Store(s.lastTimestamp.Some? && Talkspurt(x, s.lastTimestamp.value))
  }

  /** Room for one more: the numerically lowest sample goes when the buffer is full. */
  function Room(c: Config, samples: Samples): (r: Samples)
  {
    if |samples| >= c.capacity && samples.Keys != {} then samples - {Min(samples.Keys)} else samples
  }

  function Pushed(c: Config, s: State, x: Sample, now: nat): (s': State)
  {
    if x.sequence.None? then s
    else
      var k := x.sequence.value;
      var ssrc := if s.lastSsrc.None? then x.ssrc else s.lastSsrc;
      match Decide(s, x, k)
      case Drop => s.(lastSsrc := ssrc)
      case Restart => State(map[k := Buffered(x, now)], None, None, x.ssrc)
      case Store(clear) =>
        var kept := Room(c, if clear then map[] else s.samples);
        s.(samples := kept[k := Buffered(x, now)], lastSsrc := ssrc)
  }

  ghost predicate Small(c: Config, s: State) { |s.samples| <= if c.capacity < 1 then 1 else c.capacity }

  lemma RoomIsLess(c: Config, samples: Samples)
    requires |samples| <= if c.capacity < 1 then 1 else c.capacity
    ensures |Room(c, samples)| + 1 <= (if c.capacity < 1 then 1 else c.capacity)
    ensures forall k | k in Room(c, samples) :: k in samples
  {
    if |samples| >= c.capacity && samples.Keys != {} {
      var m := Min(samples.Keys);
      assert m in samples;
      assert |samples.Keys| == |samples|;
      assert (samples - {m}).Keys == samples.Keys - {m};
      assert |samples - {m}| == |(samples - {m}).Keys|;
    } else if samples.Keys == {} {
      assert |samples| == |samples.Keys|;
    }
  }

  lemma InsertCount(samples: Samples, k: U16, b: Buffered)
    ensures |samples[k := b]| <= |samples| + 1
  {
    assert samples[k := b].Keys == samples.Keys + {k};
    assert |samples[k := b]| == |samples[k := b].Keys| && |samples| == |samples.Keys|;
    if k in samples { assert samples.Keys + {k} == samples.Keys; }
  }

  /** Every push keeps the order and the size bound. */
  lemma PushKeeps(c: Config, s: State, x: Sample, now: nat)
    requires Ordered(s) && Small(c, s)
    ensures Ordered(Pushed(c, s, x, now)) && Small(c, Pushed(c, s, x, now))
  {
    if x.sequence.Some? {
      var k := x.sequence.value;
      var d := Decide(s, x, k);
      if d.Store? {
        var base := if d.clear then map[] else s.samples;
        RoomIsLess(c, base);
        InsertCount(Room(c, base), k, Buffered(x, now));
      }
    }
  }

  lemma PopKeepsSmall(c: Config, s: State, now: nat)
    requires Small(c, s)
    ensures Small(c, Popped(c, s, now).0)
  {
    FirstIsBuffered(s);
    if Due(c, s, now) {
      var f := First(s).value;
      assert (s.samples - {f}).Keys == s.samples.Keys - {f};
      assert |s.samples - {f}| == |(s.samples - {f}).Keys| && |s.samples| == |s.samples.Keys|;
    }
  }

  // ----- runs

  datatype Op = Push(sample: Sample, now: nat) | Pop(now: nat) | Reset

  function Step(c: Config, s: State, op: Op): (s': State)
  {
    match op
    case Push(x, now) => Pushed(c, s, x, now)
    case Pop(now) => Popped(c, s, now).0
    case Reset => EMPTY
  }

  /** The step delivers a sample; its sequence number is then the last delivered one. */
  predicate Delivers(c: Config, s: State, op: Op) { op.Pop? && Popped(c, s, op.now).1.Some? }

  /** A delivery: how many restarts came before it, and which packet it was. */
  datatype Delivery = Delivery(epoch: nat, index: int, sequence: U16)

  datatype History = History(state: State, epoch: nat, deliveries: seq<Delivery>)

  function Record(c: Config, h: History, op: Op): (h': History)
  {
    var s' := Step(c, h.state, op);
    if Delivers(c, h.state, op) then
      var x := Popped(c, h.state, op.now).1.value;
      History(s', h.epoch, h.deliveries + [Delivery(h.epoch, x.index, s'.last.value)])
    else History(s', if h.state.last.Some? && s'.last.None? then h.epoch + 1 else h.epoch, h.deliveries)
  }

  function Run(c: Config, ops: seq<Op>): (h: History)
  {
    if ops == [] then History(EMPTY, 0, []) else Record(c, Run(c, ops[..|ops| - 1]), ops[|ops| - 1])
  }

  /** The start premise, wherever the run makes a first delivery. */
  ghost predicate Starts(c: Config, ops: seq<Op>)
  {
    ops == [] ||
      var m := |ops| - 1;
      var s := Run(c, ops[..m]).state;
      && Starts(c, ops[..m])
      && (Delivers(c, s, ops[m]) && s.last.None? ==> s.samples.Keys != {} && StartOk(s.samples.Keys))
  }

  /** The deliveries so far, `epoch` restarts after the start, with `last` delivered since the latest of them. */
  ghost predicate Ledger(ds: seq<Delivery>, epoch: nat, last: Option<U16>)
  {
    && (forall i {:trigger ds[i]} | 0 <= i < |ds| :: ds[i].epoch <= epoch && (last.None? ==> ds[i].epoch < epoch))
    && (last.Some? ==> ds != [] && ds[|ds| - 1].sequence == last.value && ds[|ds| - 1].epoch == epoch)
  }

  /** Each delivery is newer than the one before, unless the buffer was restarted in between. */
  ghost predicate Forward(ds: seq<Delivery>)
  {
    forall i {:trigger ds[i]} | 0 < i < |ds| ::
      ds[i - 1].epoch <= ds[i].epoch && (ds[i - 1].epoch == ds[i].epoch ==> IsNewer(ds[i].sequence, ds[i - 1].sequence))
  }

  /** What every run keeps that starts well. */
  ghost predicate Inv(c: Config, h: History)
  {
    && Ordered(h.state) && Small(c, h.state)
    && Ledger(h.deliveries, h.epoch, h.state.last) && Forward(h.deliveries)
  }

  /** The step from one state to the next, as far as order is concerned. */
  lemma StepOrder(c: Config, s: State, op: Op)
    requires Ordered(s) && Small(c, s)
    requires Delivers(c, s, op) && s.last.None? ==> s.samples.Keys != {} && StartOk(s.samples.Keys)
    ensures Ordered(Step(c, s, op)) && Small(c, Step(c, s, op))
    ensures var s' := Step(c, s, op);
            Delivers(c, s, op) ==> s'.last.Some? && (s.last.Some? ==> IsNewer(s'.last.value, s.last.value))
  {
    match op
    case Push(x, now) => PushKeeps(c, s, x, now);
    case Reset =>
    case Pop(now) =>
      PopKeepsSmall(c, s, now);
      FirstIsBuffered(s);
      if Delivers(c, s, op) {
        if s.last.Some? { PopKeepsOrder(c, s, now); } else { StartIsOldestIff(s); }
      }
  }

  lemma LedgerStep(c: Config, h: History, op: Op)
    requires Ledger(h.deliveries, h.epoch, h.state.last)
    ensures var h' := Record(c, h, op); Ledger(h'.deliveries, h'.epoch, h'.state.last)
  {
    var s' := Step(c, h.state, op);
    FirstIsBuffered(h.state);
    assert !Delivers(c, h.state, op) ==> s'.last.None? || s'.last == h.state.last;
  }

  /** One step of a run. */
  lemma RecordKeeps(c: Config, h: History, op: Op)
    requires Inv(c, h)
    requires Delivers(c, h.state, op) && h.state.last.None? ==>
               h.state.samples.Keys != {} && StartOk(h.state.samples.Keys)
    ensures Inv(c, Record(c, h, op))
  {
    StepOrder(c, h.state, op);
    LedgerStep(c, h, op);
    if Delivers(c, h.state, op) {
      var h' := Record(c, h, op);
      ForwardSnoc(h.deliveries, h'.deliveries[|h.deliveries|]);
    }
  }

  lemma ForwardSnoc(ds: seq<Delivery>, d: Delivery)
    requires Forward(ds)
    requires ds != [] ==>
               var e := ds[|ds| - 1]; e.epoch <= d.epoch && (e.epoch == d.epoch ==> IsNewer(d.sequence, e.sequence))
    ensures Forward(ds + [d])
  {
    var all := ds + [d];
    forall i {:trigger all[i]} | 0 < i < |all|
      ensures all[i - 1].epoch <= all[i].epoch
      ensures all[i - 1].epoch == all[i].epoch ==> IsNewer(all[i].sequence, all[i - 1].sequence)
    {
      if i < |ds| { assert all[i] == ds[i] && all[i - 1] == ds[i - 1]; }
    }
  }

  /**
   In every run that starts well, what is buffered stays newer than what was delivered, the size bound holds, and each
   delivery is newer than the one before it, unless the buffer was restarted in between.
   */
  lemma {:induction false} RunKeeps(c: Config, ops: seq<Op>)
    requires Starts(c, ops)
    ensures Inv(c, Run(c, ops))
  {
    if ops != [] {
      var m := |ops| - 1;
      RunKeeps(c, ops[..m]);
      RecordKeeps(c, Run(c, ops[..m]), ops[m]);
    }
  }

  // ----- the sender's indices

  const TURN := 0x1_0000
  const HALF := 0x8000

  predicate Labelled(x: Sample) { x.sequence.Some? ==> x.sequence.value == x.index % TURN }

  function IndexAt(samples: Samples, k: U16): (i: int)
    requires k in samples
  {
    samples[k].sample.index
  }

  /** Every sample is stored under its own number. */
  ghost predicate Filed(samples: Samples)
  {
    forall k {:trigger k in samples} | k in samples ::
      samples[k].sample.sequence == Some(k) && IndexAt(samples, k) % TURN == k
  }

  /** The buffered packets are less than half a turn apart. */
  ghost predicate Together(samples: Samples)
  {
    forall j, k {:trigger j in samples, k in samples} | j in samples && k in samples ::
      IndexAt(samples, j) - IndexAt(samples, k) < HALF
  }

  /** The buffered packets follow packet `i`, by less than half a turn. */
  ghost predicate After(samples: Samples, i: int)
  {
    forall k {:trigger k in samples} | k in samples :: i < IndexAt(samples, k) < i + HALF
  }

  ghost predicate Oldest(samples: Samples, f: U16)
  {
    f in samples && forall k {:trigger k in samples} | k in samples :: IndexAt(samples, f) <= IndexAt(samples, k)
  }

  /** Within half a turn, `is_newer` of the numbers compares the indices. */
  lemma NewerIffLater(i: int, l: int)
    requires -HALF <= i - l < HALF
    ensures IsNewer(i % TURN, l % TURN) <==> i > l
    ensures i >= l ==> Sub16(i % TURN, l % TURN) == i - l
  {
    if i >= l {
      Modular.Distance(l, i, TURN);
    } else {
      Modular.AddTurns(i, TURN, 1);
      Modular.Distance(l, i + TURN, TURN);
    }
  }

  /** With something delivered, the choice is the oldest packet in the buffer. */
  lemma FirstIsOldest(s: State, l: int)
    requires s.last == Some(l % TURN) && Filed(s.samples) && After(s.samples, l) && s.samples.Keys != {}
    ensures Ordered(s) && First(s).Some? && Oldest(s.samples, First(s).value)
  {
    FirstIsBuffered(s);
    var f := First(s).value;
    forall k | k in s.samples ensures IsNewer(k, l % TURN) && Sub16(k, l % TURN) == IndexAt(s.samples, k) - l {
      NewerIffLater(IndexAt(s.samples, k), l);
    }
    assert f in s.samples;
    forall k | k in s.samples ensures IndexAt(s.samples, f) <= IndexAt(s.samples, k) { FirstIsNearest(s, k); }
  }

  function TurnOf(samples: Samples, k: U16): (t: int)
    requires k in samples
  {
    IndexAt(samples, k) / TURN
  }

  /** Two packets of a turn before that of a third. */
  predicate Stragglers(samples: Samples, a: U16, b: U16, c: U16)
  {
    && a in samples && b in samples && c in samples && a < b
    && TurnOf(samples, a) == TurnOf(samples, b) < TurnOf(samples, c)
  }

  /** The buffered packets are of one turn of the sequence number, or just one of them is of the turn before. */
  ghost predicate OneStraggler(samples: Samples)
  {
    forall a, b, c :: !Stragglers(samples, a, b, c)
  }

  /**
   Of two packets less than half a turn apart, the one of the earlier turn has the higher number by more than half a
   turn.
   */
  lemma AcrossWrap(i: int, j: int)
    requires j - i < HALF
    ensures i / TURN < j / TURN ==> j / TURN == i / TURN + 1 && i % TURN > j % TURN + HALF
  {
  }

  lemma SameTurn(i: int, j: int)
    ensures i / TURN == j / TURN ==> i - j == i % TURN - j % TURN
  {
  }

  /** The lowest number is of the latest turn in the buffer, the highest of the earliest. */
  lemma EndsOfTurns(s: State, k: U16)
    requires Filed(s.samples) && Together(s.samples) && k in s.samples
    ensures Min(s.samples.Keys) in s.samples && Max(s.samples.Keys) in s.samples
    ensures TurnOf(s.samples, Max(s.samples.Keys)) <= TurnOf(s.samples, k) <= TurnOf(s.samples, Min(s.samples.Keys))
  {
    var (lo, hi) := (Min(s.samples.Keys), Max(s.samples.Keys));
    assert lo in s.samples && hi in s.samples && lo <= k <= hi;
    AcrossWrap(IndexAt(s.samples, k), IndexAt(s.samples, hi));
    AcrossWrap(IndexAt(s.samples, lo), IndexAt(s.samples, k));
  }

  /** With nothing delivered yet, the choice is the lowest number within one turn, and the highest across a wrap. */
  lemma FirstOfTurns(s: State)
    requires s.last.None? && Filed(s.samples) && Together(s.samples) && s.samples.Keys != {}
    ensures Min(s.samples.Keys) in s.samples && Max(s.samples.Keys) in s.samples
    ensures var (lo, hi) := (Min(s.samples.Keys), Max(s.samples.Keys));
            First(s) == Some(if TurnOf(s.samples, hi) < TurnOf(s.samples, lo) then hi else lo)
  {
    var (lo, hi) := (Min(s.samples.Keys), Max(s.samples.Keys));
    EndsOfTurns(s, Min(s.samples.Keys));
    AcrossWrap(IndexAt(s.samples, hi), IndexAt(s.samples, lo));
    SameTurn(IndexAt(s.samples, hi), IndexAt(s.samples, lo));
    if lo < hi { Behind(lo, hi); }
  }

  /** With nothing delivered yet, the choice is the oldest packet exactly under `OneStraggler`. */
  lemma FirstIsOldestIff(s: State)
    requires s.last.None? && Filed(s.samples) && Together(s.samples) && s.samples.Keys != {}
    ensures First(s).Some? && First(s).value in s.samples
            && (Oldest(s.samples, First(s).value) <==> OneStraggler(s.samples))
  {
    FirstOfTurns(s);
    var (lo, hi, f) := (Min(s.samples.Keys), Max(s.samples.Keys), First(s).value);
    forall k | k in s.samples ensures TurnOf(s.samples, hi) <= TurnOf(s.samples, k) <= TurnOf(s.samples, lo) {
      EndsOfTurns(s, k);
    }
    if f == lo {
      forall k | k in s.samples ensures IndexAt(s.samples, f) <= IndexAt(s.samples, k) {
        SameTurn(IndexAt(s.samples, k), IndexAt(s.samples, f));
      }
    } else if OneStraggler(s.samples) {
      forall k | k in s.samples ensures IndexAt(s.samples, f) <= IndexAt(s.samples, k) {
        assert !Stragglers(s.samples, k, hi, lo);
      }
    } else {
      var a, b, c :| Stragglers(s.samples, a, b, c);
      StragglerIsOlder(s.samples, hi, a, b, c);
    }
  }

  /**
   The packet a full buffer gives up is the oldest one exactly when none is left of the turn before: across a wrap it
   is one of the newer packets that goes.
   */
  lemma EvictsOldestIff(c: Config, s: State)
    requires Filed(s.samples) && Together(s.samples) && s.samples.Keys != {} && |s.samples| >= c.capacity
    ensures var lo := Min(s.samples.Keys);
            && lo in s.samples && Room(c, s.samples) == s.samples - {lo}
            && (Oldest(s.samples, lo) <==> forall k | k in s.samples :: TurnOf(s.samples, k) == TurnOf(s.samples, lo))
  {
    var lo := Min(s.samples.Keys);
    assert lo in s.samples;
    forall k | k in s.samples
      ensures TurnOf(s.samples, k) <= TurnOf(s.samples, lo)
      ensures IndexAt(s.samples, lo) <= IndexAt(s.samples, k) <==> TurnOf(s.samples, k) == TurnOf(s.samples, lo)
    {
      EndsOfTurns(s, k);
      TurnsOrder(IndexAt(s.samples, lo), IndexAt(s.samples, k));
    }
  }

  /** Of the two packets the first has the lower number and is not of an earlier turn. */
  lemma TurnsOrder(i: int, j: int)
    requires i % TURN <= j % TURN && j / TURN <= i / TURN
    ensures i <= j <==> j / TURN == i / TURN
  {
    SameTurn(i, j);
  }

  lemma StragglerIsOlder(samples: Samples, hi: U16, a: U16, b: U16, c: U16)
    requires Filed(samples) && Together(samples) && hi in samples && Stragglers(samples, a, b, c) && b <= hi
    requires TurnOf(samples, hi) <= TurnOf(samples, a)
    ensures !Oldest(samples, hi)
  {
    OlderInTurn(IndexAt(samples, a), IndexAt(samples, hi), IndexAt(samples, c));
  }

  lemma OlderInTurn(i: int, hi: int, c: int)
    requires hi / TURN <= i / TURN < c / TURN && c - hi < HALF && i % TURN < hi % TURN
    ensures i < hi
  {
    AcrossWrap(hi, c);
    SameTurn(i, hi);
  }

  /** The last delivered packet. */
  function Top(h: History): (i: int)
    requires h.deliveries != []
  {
    h.deliveries[|h.deliveries| - 1].index
  }

  /** Packet `i` is less than half a turn from the last delivered one, or from all that wait for a first delivery. */
  ghost predicate Close(h: History, i: int)
  {
    if h.state.last.Some? then h.deliveries != [] && -HALF <= i - Top(h) < HALF
    else forall k {:trigger k in h.state.samples} | k in h.state.samples ::
      -HALF < i - IndexAt(h.state.samples, k) < HALF
  }

  /**
   What the network may do: a packet that does not restart the buffer is close; a first delivery meets one straggler.
   */
  ghost predicate Expected(c: Config, h: History, op: Op)
  {
    match op
    case Push(x, _) =>
      Labelled(x) && (x.sequence.Some? && !Decide(h.state, x, x.sequence.value).Restart? ==> Close(h, x.index))
    case Pop(_) => Delivers(c, h.state, op) && h.state.last.None? ==> OneStraggler(h.state.samples)
    case Reset => true
  }

  ghost predicate Tame(c: Config, ops: seq<Op>)
  {
    forall m {:trigger ops[m]} | 0 <= m < |ops| :: Expected(c, Run(c, ops[..m]), ops[m])
  }

  /** Between restarts, packets are delivered in the order they were sent. */
  ghost predicate Rising(ds: seq<Delivery>)
  {
    forall i, j {:trigger ds[i], ds[j]} | 0 <= i < j < |ds| ::
      ds[i].epoch <= ds[j].epoch && (ds[i].epoch == ds[j].epoch ==> ds[i].index < ds[j].index)
  }

  ghost predicate InOrder(h: History)
  {
    && Filed(h.state.samples) && Together(h.state.samples)
    && Ledger(h.deliveries, h.epoch, h.state.last) && Rising(h.deliveries)
    && (h.state.last.Some? ==> h.state.last.value == Top(h) % TURN && After(h.state.samples, Top(h)))
  }

  /** A packet is dropped as late exactly when it does not follow the last delivered one. */
  lemma DroppedIffLate(h: History, x: Sample)
    requires InOrder(h) && h.state.last.Some? && x.sequence.Some? && Labelled(x) && Close(h, x.index)
    requires x.ssrc.None? || h.state.lastSsrc.None? || x.ssrc == h.state.lastSsrc
    ensures Decide(h.state, x, x.sequence.value).Drop? <==> x.index <= Top(h)
  {
    NewerIffLater(x.index, Top(h));
  }

  lemma RoomKeeps(c: Config, samples: Samples)
    ensures forall j | j in Room(c, samples) :: j in samples && Room(c, samples)[j] == samples[j]
  {
  }

  /** A packet that is not dropped, into the buffer. */
  lemma StoreInOrder(c: Config, h: History, x: Sample, now: nat, k: U16)
    requires InOrder(h) && Expected(c, h, Push(x, now)) && x.sequence == Some(k) && Decide(h.state, x, k).Store?
    ensures var s' := Pushed(c, h.state, x, now);
            && Filed(s'.samples) && Together(s'.samples) && s'.last == h.state.last
            && (s'.last.Some? ==> After(s'.samples, Top(h)))
  {
    var s := h.state;
    var base := if Decide(s, x, k).clear then map[] else s.samples;
    if s.last.Some? { NewerIffLater(x.index, Top(h)); }
    RoomKeeps(c, base);
    StoreKeeps(s.samples, Room(c, base), Buffered(x, now), k, Pushed(c, s, x, now).samples);
  }

  lemma PushInOrder(c: Config, h: History, x: Sample, now: nat)
    requires InOrder(h) && Expected(c, h, Push(x, now))
    ensures InOrder(Record(c, h, Push(x, now)))
  {
    LedgerStep(c, h, Push(x, now));
    if x.sequence.Some? && Decide(h.state, x, x.sequence.value).Store? {
      StoreInOrder(c, h, x, now, x.sequence.value);
    }
  }

  /** Storing a packet that is close to all that stay. */
  lemma StoreKeeps(was: Samples, kept: Samples, b: Buffered, k: U16, samples: Samples)
    requires Filed(was) && Together(was) && forall j | j in kept :: j in was && kept[j] == was[j]
    requires b.sample.sequence == Some(k) && Labelled(b.sample) && samples == kept[k := b]
    requires forall j {:trigger j in was} | j in was :: -HALF < b.sample.index - IndexAt(was, j) < HALF
    ensures Filed(samples) && Together(samples)
    ensures forall i | After(was, i) && i < b.sample.index < i + HALF :: After(samples, i)
  {
  }

  /** What is delivered is the oldest packet in the buffer. */
  lemma DeliversOldest(c: Config, h: History, now: nat)
    requires InOrder(h) && Expected(c, h, Pop(now)) && Delivers(c, h.state, Pop(now))
    ensures First(h.state).Some? && Oldest(h.state.samples, First(h.state).value)
  {
    FirstIsBuffered(h.state);
    if h.state.last.Some? { FirstIsOldest(h.state, Top(h)); } else { FirstIsOldestIff(h.state); }
  }

  lemma PopInOrder(c: Config, h: History, now: nat)
    requires InOrder(h) && Expected(c, h, Pop(now))
    ensures InOrder(Record(c, h, Pop(now)))
  {
    var (s, op) := (h.state, Pop(now));
    LedgerStep(c, h, op);
    if Delivers(c, s, op) {
      DeliversOldest(c, h, now);
      var f := First(s).value;
      OthersFollow(s.samples, f);
      var d := Delivery(h.epoch, IndexAt(s.samples, f), f);
      RisingSnoc(h.deliveries, d);
      assert Record(c, h, op) == History(Step(c, s, op), h.epoch, h.deliveries + [d]);
    }
  }

  /** Everything in the buffer but its oldest packet follows that one. */
  lemma OthersFollow(samples: Samples, f: U16)
    requires Filed(samples) && Together(samples) && Oldest(samples, f)
    ensures After(samples - {f}, IndexAt(samples, f))
  {
  }

  lemma RisingSnoc(ds: seq<Delivery>, d: Delivery)
    requires Rising(ds)
    requires ds != [] ==>
               var e := ds[|ds| - 1]; e.epoch <= d.epoch && (e.epoch == d.epoch ==> e.index < d.index)
    ensures Rising(ds + [d])
  {
  }

  /**
   In every tame run the packets delivered between restarts strictly increase in the sender's indices, through any
   number of wraps of the sequence number.
   */
  lemma {:induction false} RunInOrder(c: Config, ops: seq<Op>)
    requires Tame(c, ops)
    ensures InOrder(Run(c, ops))
  {
    if ops != [] {
      var m := |ops| - 1;
      forall n | 0 <= n < m ensures Expected(c, Run(c, ops[..m][..n]), ops[..m][n]) {
        assert ops[..m][..n] == ops[..n] && ops[..m][n] == ops[n];
      }
      RunInOrder(c, ops[..m]);
      match ops[m]
      case Push(x, now) => PushInOrder(c, Run(c, ops[..m]), x, now);
      case Pop(now) => PopInOrder(c, Run(c, ops[..m]), now);
      case Reset => LedgerStep(c, Run(c, ops[..m]), ops[m]);
    }
  }

  // ----- a start that goes wrong

  function Packet(i: int): (x: Sample) { Sample(Audio, Some(i % TURN), i, 0, None, false, 8000, []) }

  function Held(i: int): (b: Buffered) { Buffered(Packet(i), 0) }

  /** Another packet into a buffer that has delivered nothing and is not full. */
  lemma PushStep(c: Config, ops: seq<Op>, i: int, k: U16, samples: Samples)
    requires Run(c, ops) == History(State(samples, None, None, None), 0, []) && |samples| < c.capacity && k == i % TURN
    ensures Run(c, ops + [Push(Packet(i), 0)]) == History(State(samples[k := Held(i)], None, None, None), 0, [])
  {
    RunSnoc(c, ops, Push(Packet(i), 0));
  }

  lemma PopStep(c: Config, h: History, i: int)
    requires First(h.state) == Some(i % TURN) && i % TURN in h.state.samples && c.minDelay == c.maxDelay == 0
    requires h.state.samples[i % TURN] == Buffered(Packet(i), 0)
    ensures Record(c, h, Pop(0)).state
            == h.state.(samples := h.state.samples - {i % TURN}, last := Some(i % TURN), lastTimestamp := Some(0))
    ensures Record(c, h, Pop(0)).deliveries == h.deliveries + [Delivery(h.epoch, i, i % TURN)]
    ensures Record(c, h, Pop(0)).epoch == h.epoch
  {
  }

  lemma RunSnoc(c: Config, ops: seq<Op>, op: Op)
    ensures Run(c, ops + [op]) == Record(c, Run(c, ops), op)
  {
    assert (ops + [op])[..|ops|] == ops;
  }

  const EARLY := [Push(Packet(0xFFFE), 0)] + [Push(Packet(0xFFFF), 0)] + [Push(Packet(0x1_0000), 0)]

  lemma EarlyPushes(c: Config)
    requires c.capacity == 8
    ensures Run(c, EARLY)
            == History(
                 State(map[0xFFFE := Held(0xFFFE), 0xFFFF := Held(0xFFFF), 0 := Held(0x1_0000)], None, None, None),
                 0, [])
  {
    var ops := [Push(Packet(0xFFFE), 0)];
    PushStep(c, [], 0xFFFE, 0xFFFE, map[]);
    assert [] + ops == ops;
    PushStep(c, ops, 0xFFFF, 0xFFFF, map[0xFFFE := Held(0xFFFE)]);
    PushStep(c, ops + [Push(Packet(0xFFFF), 0)], 0x1_0000, 0, map[0xFFFE := Held(0xFFFE), 0xFFFF := Held(0xFFFF)]);
  }

  lemma FirstPop(s: State)
    requires s == State(map[0xFFFE := Held(0xFFFE), 0xFFFF := Held(0xFFFF), 0 := Held(0x1_0000)], None, None, None)
    ensures First(s) == Some(0xFFFF) && s.samples - {0xFFFF} == map[0xFFFE := Held(0xFFFE), 0 := Held(0x1_0000)]
  {
    assert 0 in s.samples.Keys && 0xFFFF in s.samples.Keys;
  }

  lemma SecondPop(s: State)
    requires s == State(map[0xFFFE := Held(0xFFFE), 0 := Held(0x1_0000)], Some(0xFFFF), Some(0), None)
    ensures First(s) == Some(0) && s.samples - {0} == map[0xFFFE := Held(0xFFFE)]
  {
    assert 0 in s.samples.Keys;
  }

  lemma ThirdPop(s: State)
    requires s == State(map[0xFFFE := Held(0xFFFE)], Some(0), Some(0), None)
    ensures First(s) == Some(0xFFFE)
  {
    assert From(s.samples.Keys, 1) == {0xFFFE};
  }

  /** Packets 65534, 65535 and 65536, in order and at once, into an empty buffer come out as 65535, 65536 and 65534. */
  lemma StartCanMisorder()
    ensures Run(Config(0, 0, 8), EARLY + [Pop(0)] + [Pop(0)] + [Pop(0)]).deliveries
            == [Delivery(0, 0xFFFF, 0xFFFF), Delivery(0, 0x1_0000, 0), Delivery(0, 0xFFFE, 0xFFFE)]
  {
    var c := Config(0, 0, 8);
    EarlyPushes(c);
    var h := Run(c, EARLY);
    FirstPop(h.state);
    PopStep(c, h, 0xFFFF);
    var h' := Record(c, h, Pop(0));
    SecondPop(h'.state);
    PopStep(c, h', 0x1_0000);
    var h'' := Record(c, h', Pop(0));
    ThirdPop(h''.state);
    PopStep(c, h'', 0xFFFE);
    RunSnoc(c, EARLY, Pop(0));
    RunSnoc(c, EARLY + [Pop(0)], Pop(0));
    RunSnoc(c, EARLY + [Pop(0)] + [Pop(0)], Pop(0));
  }

  const FULL := [Push(Packet(0xFFFF), 0)] + [Push(Packet(0x1_0000), 0)]

  /** A buffer for two, with packets 65535 and 65536 in it, gives up the newer of them for packet 65537. */
  lemma EvictionTakesNewer()
    ensures var c := Config(0, 0, 2);
            && Run(c, FULL).state.samples == map[0xFFFF := Held(0xFFFF), 0 := Held(0x1_0000)]
            && Run(c, FULL + [Push(Packet(0x1_0001), 0)]).state.samples
               == map[0xFFFF := Held(0xFFFF), 1 := Held(0x1_0001)]
  {
    var c := Config(0, 0, 2);
    var ops, samples := [Push(Packet(0xFFFF), 0)], map[0xFFFF := Held(0xFFFF), 0 := Held(0x1_0000)];
    PushStep(c, [], 0xFFFF, 0xFFFF, map[]);
    assert [] + ops == ops;
    PushStep(c, ops, 0x1_0000, 0, map[0xFFFF := Held(0xFFFF)]);
    assert samples.Keys == {0xFFFF, 0} && |samples.Keys| == |samples| == 2 && 0 in samples.Keys;
    assert Min(samples.Keys) == 0 && samples - {0} == map[0xFFFF := Held(0xFFFF)];
    RunSnoc(c, FULL, Push(Packet(0x1_0001), 0));
  }

  // ----- the buffer

  class Buffer {
    const config: Config
    var samples: Samples
    var lastDeliveredSeq: Option<U16>
    var lastDeliveredTimestamp: Option<U32>
    var lastSsrc: Option<U32>

    function Abstract(): (s: State)
      reads this
    {
      State(samples, lastDeliveredSeq, lastDeliveredTimestamp, lastSsrc)
    }

    constructor (config: Config)
      ensures this.config == config && Abstract() == EMPTY
    {
      this.config := config;
      samples, lastDeliveredSeq, lastDeliveredTimestamp, lastSsrc := map[], None, None, None;
    }

    method ResetAll()
      modifies this
      ensures Abstract() == EMPTY
    {
      samples := map[];
      lastDeliveredSeq := None;
      lastDeliveredTimestamp := None;
      lastSsrc := None;
    }

    /** Starts over with one sample. */
    method StartOver(x: Sample, k: U16, now: nat)
      modifies this
      ensures Abstract() == State(map[k := Buffered(x, now)], None, None, x.ssrc)
    {
      ResetAll();
      if x.ssrc.Some? {
        lastSsrc := x.ssrc;
      }
      samples := samples[k := Buffered(x, now)];
    }

    method PushSample(x: Sample, now: nat)
      modifies this
      ensures Abstract() == Pushed(config, old(Abstract()), x, now)
    {
      if x.sequence.None? {
        return;
      }
      var k := x.sequence.value;
      ghost var decision := Decide(Abstract(), x, k);
      if x.ssrc.Some? {
        if lastSsrc.Some? {
          if lastSsrc != x.ssrc {
            StartOver(x, k, now);
            return;
          }
        } else {
          lastSsrc := x.ssrc;
        }
      }
      if lastDeliveredSeq.Some? {
        if !IsNewer(k, lastDeliveredSeq.value) {
          return;
        }
        if Sub16(k, lastDeliveredSeq.value) > MAX_SEQ_GAP {
          StartOver(x, k, now);
          return;
        }
      }
      if lastDeliveredTimestamp.Some? {
        var d := Sub32(x.timestamp, lastDeliveredTimestamp.value);
        var max := MaxJump(x);
        if d > max && d < 0x7FFF_FFFF {
          assert decision.Restart?;
          StartOver(x, k, now);
          return;
        } else if d > 0x7FFF_FFFF {
          var back := Sub32(lastDeliveredTimestamp.value, x.timestamp);
          if back > max {
            assert decision.Restart?;
            StartOver(x, k, now);
            return;
          }
        }
        if x.marker && d > ClockRate(x) / 2 && d < 0x7FFF_FFFF && samples != map[] {
          samples := map[];
        }
      }
      assert decision.Store? && samples == if decision.clear then map[] else old(samples);
      Insert(x, k, now);
    }

    /** Stores a sample, after dropping the numerically lowest one if the buffer is full. */
    method Insert(x: Sample, k: U16, now: nat)
      modifies this`samples
      ensures samples == Room(config, old(samples))[k := Buffered(x, now)]
    {
      if |samples| >= config.capacity && samples.Keys != {} {
        samples := samples - {Min(samples.Keys)};
      }
      samples := samples[k := Buffered(x, now)];
    }

    method PopSample(now: nat) returns (x: Option<Sample>)
      modifies this
      ensures (Abstract(), x) == Popped(config, old(Abstract()), now)
    {
      var first := First(Abstract());
      FirstIsBuffered(Abstract());
      if first.None? {
        return None;
      }
      var k := first.value;
      var isNext := if lastDeliveredSeq.Some? then k == Add16(lastDeliveredSeq.value, 1) else true;
      var age := Age(samples[k], now);
      var shouldDeliver := if isNext then age >= config.minDelay else age >= config.maxDelay;
      if !shouldDeliver {
        return None;
      }
      var sample := samples[k].sample;
      samples := samples - {k};
      lastDeliveredSeq := Some(k);
      lastDeliveredTimestamp := Some(sample.timestamp);
      x := Some(sample);
    }
  }
}

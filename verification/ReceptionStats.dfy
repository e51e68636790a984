/** Reception statistics for report blocks (src/stats_collector.rs, appendices A.1 and A.3 of RFC 3550). */
module ReceptionStats {
  import opened Wrappers
  import opened Bytes
  import Modular

  /** The counters of `LocalInboundStats` that report blocks are made of. */
  datatype Stats = Stats(received: nat, base: U32, maxSeq: U32, cycles: U16, initialized: bool, expectedPrior: U32,
                         receivedPrior: U32)

  const INITIAL := Stats(0, 0, 0, 0, false, 0, 0)

  function Update(s: Stats, sequence: U16): (s': Stats)
  {
    if !s.initialized then
      s.(received := s.received + 1, initialized := true, base := sequence, maxSeq := sequence, cycles := 0)
    else
      var low := s.maxSeq % 0x1_0000;
      if Sub16(sequence, low) < 0x8000 then
        var cycles := if sequence < low then Add16(s.cycles, 1) else s.cycles;
        s.(received := s.received + 1, cycles := cycles, maxSeq := 0x1_0000 * cycles + sequence)
      else s.(received := s.received + 1)
  }

  function Wrap32(x: int): (r: U32) { x % 0x1_0000_0000 }

  function Expected(s: Stats): (n: U32) { if s.initialized then Wrap32(s.maxSeq - s.base + 1) else 0 }

  /** `u32 as i32`. */
  function AsI32(x: U32): (r: int) { if x < 0x8000_0000 then x else x - 0x1_0000_0000 }

  function Clamp(x: int): (r: int)
  {
    if x < -0x8000_0000 then -0x8000_0000 else if x > 0x7FFF_FFFF then 0x7FFF_FFFF else x
  }

  datatype Report = Report(fraction: Byte, lost: int, highest: U32)

  function ExpectedInterval(s: Stats): (n: U32) { Wrap32(Expected(s) - s.expectedPrior) }

  function ReceivedInterval(s: Stats): (n: U32) { Wrap32(s.received - s.receivedPrior) }

  function LostInterval(s: Stats): (n: int) { AsI32(ExpectedInterval(s)) - AsI32(ReceivedInterval(s)) }

  function Fraction(s: Stats): (f: Byte)
  {
    if ExpectedInterval(s) == 0 || LostInterval(s) <= 0 then 0
    else Share(LostInterval(s), ExpectedInterval(s))
  }

  /** `((lost as u32) << 8) / expected` as a byte. */
  function Share(lost: int, expected: U32): (f: Byte)
    requires expected > 0
  {
    Wrap32(256 * lost) / expected % 0x100
  }

  function ReportOf(s: Stats): (r: Report) { Report(Fraction(s), Clamp(Expected(s) - s.received), s.maxSeq) }

  function Reported(s: Stats): (s': Stats) { s.(expectedPrior := Expected(s), receivedPrior := Wrap32(s.received)) }

  class LocalInbound {
    var packetsReceived: nat
    var baseSeq: U32
    var maxSeq: U32
    var cycles: U16
    var initialized: bool
    var expectedPrior: U32
    var receivedPrior: U32

    function Abstract(): (s: Stats)
      reads this
    {
      Stats(packetsReceived, baseSeq, maxSeq, cycles, initialized, expectedPrior, receivedPrior)
    }

    constructor ()
      ensures Abstract() == INITIAL
    {
      packetsReceived, baseSeq, maxSeq, cycles, initialized, expectedPrior, receivedPrior := 0, 0, 0, 0, false, 0, 0;
    }

    method Arrive(sequence: U16)
      modifies this
      ensures Abstract() == Update(old(Abstract()), sequence)
    {
      if !initialized {
        initialized := true;
        baseSeq := sequence;
        maxSeq := sequence;
        cycles := 0;
      } else {
        var delta := Sub16(sequence, maxSeq % 0x1_0000);
        if delta < 0x8000 {
          if sequence < maxSeq % 0x1_0000 {
            cycles := Add16(cycles, 1);
          }
          maxSeq := 0x1_0000 * cycles + sequence;
        }
      }
      packetsReceived := packetsReceived + 1;
    }

    method TakeReportBlock() returns (r: Report)
      modifies this`expectedPrior, this`receivedPrior
      ensures Abstract() == Reported(old(Abstract())) && r == ReportOf(old(Abstract()))
    {
      var expected := Expected(Abstract());
      var expectedInterval := Wrap32(expected - expectedPrior);
      var receivedInterval := Wrap32(packetsReceived - receivedPrior);
      var lost := AsI32(expectedInterval) - AsI32(receivedInterval);
      var fraction: Byte := 0;
      if expectedInterval != 0 && lost > 0 {
        fraction := Share(lost, expectedInterval);
      }
      expectedPrior := expected;
      receivedPrior := Wrap32(packetsReceived);
      r := Report(fraction, Clamp(expected - packetsReceived), maxSeq);
    }
  }

  // ----- the extended maximum

  /** The cycle counter is the high half of the maximum. */
  predicate Coherent(s: Stats) { s.initialized ==> s.cycles == s.maxSeq / 0x1_0000 }

  lemma UpdateCoherent(s: Stats, sequence: U16)
    requires Coherent(s)
    ensures Coherent(Update(s, sequence))
  {
  }

  function Larger(a: int, b: int): (m: int) { if a < b then b else a }

  /** An update moves the maximum forward by the 16-bit distance, when that is less than half a turn. */
  lemma UpdateMoves(s: Stats, sequence: U16)
    requires Coherent(s) && s.initialized
    ensures var d := Sub16(sequence, s.maxSeq % 0x1_0000);
            Update(s, sequence).maxSeq == if d < 0x8000 then Wrap32(s.maxSeq + d) else s.maxSeq
  {
    var low := s.maxSeq % 0x1_0000;
    if sequence >= low {
      assert Sub16(sequence, low) == sequence - low;
      assert s.maxSeq == 0x1_0000 * s.cycles + low;
    } else {
      assert Sub16(sequence, low) == sequence - low + 0x1_0000;
      assert s.maxSeq == 0x1_0000 * s.cycles + low;
      assert Add16(s.cycles, 1) == if s.cycles == 0xFFFF then 0 else s.cycles + 1;
    }
  }

  /** Ahead by less than half a turn, or behind by a distance whose low 16 bits are at most half a turn. */
  predicate InWindow(highest: int, i: int)
  {
    if i > highest then i - highest < 0x8000 else (highest - i) % 0x1_0000 <= 0x8000
  }

  lemma Distance16(i: int, highest: int, m: U32)
    requires m == Wrap32(highest)
    ensures Sub16(i % 0x1_0000, m % 0x1_0000) == (i - highest) % 0x1_0000
  {
    Modular.ModMod(highest, 0x1_0000_0000, 0x1_0000);
    var k := i / 0x1_0000 - highest / 0x1_0000;
    assert i - highest == (i % 0x1_0000 - highest % 0x1_0000) + 0x1_0000 * k;
    Modular.AddTurns(i % 0x1_0000 - highest % 0x1_0000, 0x1_0000, k);
  }

  lemma Wrap32Add(x: int, d: int)
    ensures Wrap32(Wrap32(x) + d) == Wrap32(x + d)
  {
    Modular.AddTurns(Wrap32(x) + d, 0x1_0000_0000, x / 0x1_0000_0000);
  }

  lemma Wrap32Same(a: int, b: int)
    requires -0x8000_0000 < a - b < 0x8000_0000
    ensures Wrap32(a) == Wrap32(b) <==> a == b
  {
    if a < b { Modular.Distinct(a, b, 0x1_0000_0000); }
    if b < a { Modular.Distinct(b, a, 0x1_0000_0000); }
  }

  /** One arrival keeps the extended maximum exact if and only if it lies in the window. */
  lemma StepExactIff(s: Stats, highest: int, i: int)
    requires Coherent(s) && s.initialized && s.maxSeq == Wrap32(highest)
    requires -0x7FFF_0000 < i - highest < 0x7FFF_0000
    ensures Update(s, i % 0x1_0000).maxSeq == Wrap32(Larger(highest, i)) <==> InWindow(highest, i)
  {
    UpdateMoves(s, i % 0x1_0000);
    Distance16(i, highest, s.maxSeq);
    var d := (i - highest) % 0x1_0000;
    Wrap32Add(highest, d);
    var m' := if d < 0x8000 then highest + d else highest;
    Wrap32Same(m', Larger(highest, i));
    BehindBy(i - highest);
  }

  lemma BehindBy(x: int)
    ensures 0 < x < 0x8000 ==> x % 0x1_0000 == x
    ensures x > 0 && x % 0x1_0000 == x ==> x < 0x1_0000
    ensures x <= 0 ==> (if (-x) % 0x1_0000 == 0 then x % 0x1_0000 == 0 else x % 0x1_0000 == 0x1_0000 - (-x) % 0x1_0000)
  {
    if x <= 0 {
      var (q, r) := ((-x) / 0x1_0000, (-x) % 0x1_0000);
      if r == 0 { Modular.Unique(x, 0x1_0000, -q, 0); } else { Modular.Unique(x, 0x1_0000, -q - 1, 0x1_0000 - r); }
    }
  }

  // ----- runs

  /** A packet with its true, unwrapped index arrives, or a report block is taken. */
  datatype Event = Arrival(index: int) | Take

  function Next(s: Stats, e: Event): (s': Stats)
  {
    match e
    case Arrival(i) => Update(s, i % 0x1_0000)
    case Take => Reported(s)
  }

  /** The same bookkeeping on true indices: the first and the highest one, and the counts at the last report. */
  datatype Truth = Truth(first: Option<int>, highest: int, received: nat, expectedPrior: nat, receivedPrior: nat)

  function TrueExpected(t: Truth): (n: int) { if t.first.Some? then t.highest - t.first.value + 1 else 0 }

  function TrueNext(t: Truth, e: Event): (t': Truth)
    requires t.first.Some? ==> t.highest >= t.first.value
  {
    match e
    case Arrival(i) =>
      if t.first.None? then t.(first := Some(i), highest := i, received := t.received + 1)
      else t.(highest := Larger(t.highest, i), received := t.received + 1)
    case Take => t.(expectedPrior := TrueExpected(t), receivedPrior := t.received)
  }

  /** Each arrival within 2^15 of the highest index so far. */
  predicate Near(t: Truth, e: Event)
  {
    e.Arrival? && t.first.Some? ==> -0x8000 <= e.index - t.highest < 0x8000
  }

  /** What is expected cannot grow without a packet received. */
  predicate TruthOk(t: Truth)
  {
    && (t.first.Some? ==> t.highest >= t.first.value && t.received > 0)
    && t.expectedPrior <= TrueExpected(t) && t.receivedPrior <= t.received
    && (TrueExpected(t) > t.expectedPrior ==> t.received > t.receivedPrior)
  }

  /** The start of the cycle the first packet was in. */
  function Origin(first: int): (o: int) { first - first % 0x1_0000 }

  predicate Agree(s: Stats, t: Truth)
  {
    && Coherent(s) && TruthOk(t) && s.initialized == t.first.Some? && s.received == t.received
    && s.expectedPrior == Wrap32(t.expectedPrior) && s.receivedPrior == Wrap32(t.receivedPrior)
    && (t.first.Some? ==> s.base == t.first.value % 0x1_0000 && s.maxSeq == Wrap32(t.highest - Origin(t.first.value)))
  }

  lemma ShiftedMod(i: int, first: int)
    ensures (i - Origin(first)) % 0x1_0000 == i % 0x1_0000
  {
    Modular.AddTurns(i, 0x1_0000, -(first / 0x1_0000));
  }

  lemma ExpectedAgrees(s: Stats, t: Truth)
    requires Agree(s, t)
    ensures Expected(s) == Wrap32(TrueExpected(t))
  {
    if t.first.Some? {
      Wrap32Add(t.highest - Origin(t.first.value), 1 - s.base);
    }
  }

  lemma FirstAgrees(s: Stats, t: Truth, i: int)
    requires Agree(s, t) && t.first.None?
    ensures Agree(Update(s, i % 0x1_0000), TrueNext(t, Arrival(i)))
  {
    Modular.Unique(i % 0x1_0000, 0x1_0000_0000, 0, i % 0x1_0000);
  }

  lemma ArrivalAgrees(s: Stats, t: Truth, i: int)
    requires Agree(s, t) && t.first.Some? && Near(t, Arrival(i))
    ensures Agree(Update(s, i % 0x1_0000), TrueNext(t, Arrival(i)))
  {
    var o := Origin(t.first.value);
    UpdateCoherent(s, i % 0x1_0000);
    ShiftedMod(i, t.first.value);
    NearInWindow(t.highest - o, i - o);
    StepExactIff(s, t.highest - o, i - o);
    assert Larger(t.highest - o, i - o) == Larger(t.highest, i) - o;
  }

  lemma NearInWindow(highest: int, i: int)
    requires -0x8000 <= i - highest < 0x8000
    ensures InWindow(highest, i)
  {
    if i <= highest { Modular.Unique(highest - i, 0x1_0000, 0, highest - i); }
  }

  lemma StepAgrees(s: Stats, t: Truth, e: Event)
    requires Agree(s, t) && Near(t, e)
    ensures Agree(Next(s, e), TrueNext(t, e))
  {
    match e
    case Take => ExpectedAgrees(s, t);
    case Arrival(i) => if t.first.None? { FirstAgrees(s, t, i); } else { ArrivalAgrees(s, t, i); }
  }

  /** The intervals of the next report are the true ones. */
  lemma IntervalsAgree(s: Stats, t: Truth)
    requires Agree(s, t)
    requires TrueExpected(t) - t.expectedPrior < 0x1_0000_0000 && t.received - t.receivedPrior < 0x1_0000_0000
    ensures ExpectedInterval(s) == TrueExpected(t) - t.expectedPrior
    ensures ReceivedInterval(s) == t.received - t.receivedPrior
  {
    ExpectedAgrees(s, t);
    Modular.Distance(t.expectedPrior, TrueExpected(t), 0x1_0000_0000);
    Wrap32Sub(t.received, t.receivedPrior);
    Modular.Unique(t.received - t.receivedPrior, 0x1_0000_0000, 0, t.received - t.receivedPrior);
  }

  lemma Wrap32Sub(x: int, y: int)
    ensures Wrap32(x - Wrap32(y)) == Wrap32(x - y)
  {
    Modular.AddTurns(x - y, 0x1_0000_0000, y / 0x1_0000_0000);
  }

  function TrueLost(t: Truth): (n: int) { (TrueExpected(t) - t.expectedPrior) - (t.received - t.receivedPrior) }

  /** Intervals the 32-bit signed arithmetic can hold. */
  predicate Moderate(t: Truth)
  {
    TrueExpected(t) - t.expectedPrior < 0x8000_0000 && t.received - t.receivedPrior < 0x8000_0000
  }

  lemma LostAgrees(s: Stats, t: Truth)
    requires Agree(s, t) && Moderate(t)
    ensures LostInterval(s) == TrueLost(t)
  {
    IntervalsAgree(s, t);
  }

  /** Exact, and less than 256, up to 2^24 lost packets; beyond, the shift loses its top bits. */
  lemma ShareExactIff(lost: int, n: U32)
    requires 0 < lost < n
    ensures Share(lost, n) == 256 * lost / n <==> lost < 0x100_0000
    ensures 256 * lost / n < 256
  {
    var x := 256 * lost;
    DivideBelow(x, n);
    if lost < 0x100_0000 {
      Modular.Unique(x, 0x1_0000_0000, 0, x);
      Modular.Unique(x / n, 0x100, 0, x / n);
    } else {
      Truncated(x, n);
      Modular.Unique(Wrap32(x) / n, 0x100, 0, Wrap32(x) / n);
    }
  }

  lemma DivideBelow(x: int, n: int)
    requires n > 0 && 0 <= x < 256 * n
    ensures 0 <= x / n < 256
  {
    var q := x / n;
    if q >= 256 {
      Modular.Monotone(n, 256, q);
      assert false;
    }
  }

  /**
   The fraction of every report is 256 times the loss over what was expected, if and only if fewer than 2^24 were lost.
   */
  lemma FractionExactIff(s: Stats, t: Truth)
    requires Agree(s, t) && Moderate(t) && TrueLost(t) > 0
    ensures var n := TrueExpected(t) - t.expectedPrior;
            && n > 0 && 256 * TrueLost(t) / n < 256
            && (Fraction(s) == 256 * TrueLost(t) / n <==> TrueLost(t) < 0x100_0000)
  {
    IntervalsAgree(s, t);
    ShareExactIff(TrueLost(t), TrueExpected(t) - t.expectedPrior);
  }

  lemma NothingLost(s: Stats, t: Truth)
    requires Agree(s, t) && Moderate(t) && TrueLost(t) <= 0
    ensures Fraction(s) == 0
  {
    IntervalsAgree(s, t);
  }

  lemma Truncated(x: int, n: int)
    requires 0 < n < 0x1_0000_0000 <= x
    ensures 0 <= Wrap32(x) / n < x / n
  {
    var w := Wrap32(x);
    assert w + n < x + 1 by { assert x == 0x1_0000_0000 * (x / 0x1_0000_0000) + w; }
    Modular.AddTurns(w, n, 1);
    DivideMonotone(w + n, x, n);
  }

  lemma DivideMonotone(a: int, b: int, n: int)
    requires n > 0 && a <= b
    ensures a / n <= b / n
  {
    if b / n < a / n {
      Modular.Monotone(n, b / n + 1, a / n);
      assert false;
    }
  }

  // ----- successive reports

  /** The state, the truth and the lost intervals of all reports taken, over a run. */
  datatype Run = Run(stats: Stats, truth: Truth, losses: seq<int>)

  const START := Run(INITIAL, Truth(None, 0, 0, 0, 0), [])

  function Sum(xs: seq<int>): (n: int) { if xs == [] then 0 else Sum(xs[..|xs| - 1]) + xs[|xs| - 1] }

  ghost predicate RunOk(r: Run)
  {
    Agree(r.stats, r.truth) && Sum(r.losses) == r.truth.expectedPrior - r.truth.receivedPrior
  }

  function After(events: seq<Event>): (r: Run)
    ensures TruthOk(r.truth)
  {
    if events == [] then START
    else
      var m := |events| - 1;
      var r := After(events[..m]);
      Run(Next(r.stats, events[m]), TrueNext(r.truth, events[m]),
          if events[m].Take? then r.losses + [LostInterval(r.stats)] else r.losses)
  }

  /** Arrivals stay near the highest index, and reports are taken before an interval outgrows 31 bits. */
  predicate Tame(events: seq<Event>)
  {
    events == [] ||
      var m := |events| - 1;
      var t := After(events[..m]).truth;
      Tame(events[..m]) && Near(t, events[m]) && (events[m].Take? ==> Moderate(t))
  }

  /**
   The extended maximum is the true highest index modulo 2^32, and the lost intervals add up to the cumulative loss.
   */
  lemma {:induction false} RunAgrees(events: seq<Event>)
    requires Tame(events)
    ensures RunOk(After(events))
  {
    if events != [] {
      var m := |events| - 1;
      var r := After(events[..m]);
      RunAgrees(events[..m]);
      StepAgrees(r.stats, r.truth, events[m]);
      if events[m].Take? {
        LostAgrees(r.stats, r.truth);
        assert (r.losses + [LostInterval(r.stats)])[..|r.losses|] == r.losses;
      }
    }
  }

  /** A report's cumulative loss is the sum of the lost intervals of all reports so far, its own included. */
  lemma ReportIsSum(events: seq<Event>)
    requires Tame(events + [Take])
    requires TrueExpected(After(events).truth) < 0x1_0000_0000
    ensures ReportOf(After(events).stats).lost == Clamp(Sum(After(events + [Take]).losses))
  {
    var r := After(events);
    assert (events + [Take])[..|events|] == events;
    RunAgrees(events);
    RunAgrees(events + [Take]);
    ExpectedAgrees(r.stats, r.truth);
    Modular.Unique(TrueExpected(r.truth), 0x1_0000_0000, 0, TrueExpected(r.truth));
  }

  // ----- a run with a wrong fraction

  /** Arrivals at 0, 32767, 2 * 32767 and so on up to `n * 32767`: each one as far ahead as a tame run allows. */
  function Jumps(n: nat): (events: seq<Event>)
    ensures |events| == n + 1
  {
    if n == 0 then [Arrival(0)] else Jumps(n - 1) + [Arrival(32767 * n)]
  }

  lemma AfterSnoc(events: seq<Event>, i: int)
    ensures var r := After(events);
            After(events + [Arrival(i)]) == Run(Next(r.stats, Arrival(i)), TrueNext(r.truth, Arrival(i)), r.losses)
    ensures Tame(events) && Near(After(events).truth, Arrival(i)) ==> Tame(events + [Arrival(i)])
  {
    assert (events + [Arrival(i)])[..|events|] == events;
  }

  lemma {:induction false} JumpsAreTame(n: nat)
    ensures Tame(Jumps(n)) && After(Jumps(n)).truth == Truth(Some(0), 32767 * n, n + 1, 0, 0)
  {
    if n == 0 {
      AfterSnoc([], 0);
      assert [] + [Arrival(0)] == Jumps(0);
    } else {
      JumpsAreTame(n - 1);
      AfterSnoc(Jumps(n - 1), 32767 * n);
    }
  }

  /** After `n` such jumps the fraction of a report is exact while fewer than 2^24 packets were lost: up to 512. */
  lemma JumpsFraction(n: nat)
    requires 0 < n && 32767 * n + 1 < 0x8000_0000
    ensures var r := After(Jumps(n));
            && Tame(Jumps(n)) && Moderate(r.truth) && TrueLost(r.truth) == 32766 * n
            && TrueExpected(r.truth) == 32767 * n + 1
            && (Fraction(r.stats) == 256 * TrueLost(r.truth) / TrueExpected(r.truth) <==> n <= 512)
  {
    JumpsAreTame(n);
    RunAgrees(Jumps(n));
    FractionExactIff(After(Jumps(n)).stats, After(Jumps(n)).truth);
  }
}

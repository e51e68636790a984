/** The 48-bit SRTP packet index and its estimation from 16 bits (src/srtp.rs, section 3.3.1 of RFC 3711). */
module SrtpIndex {
  import opened Wrappers
  import opened Bytes

  const SPAN := 0x1_0000_0000_0000

  type Index = i: int | 0 <= i < 0x1_0000_0000_0000

  /** `rollover_counter` and `last_sequence`. */
  datatype State = State(roc: U32, last: Option<U16>)

  const INITIAL := State(0, None)

  function IndexOf(roc: U32, sequence: U16): (i: Index)
    ensures i % 0x1_0000 == sequence && i / 0x1_0000 == roc
  {
    0x1_0000 * roc + sequence
  }

  function Sequence(i: Index): (s: U16) { i % 0x1_0000 }

  function Roc(i: Index): (r: U32) { i / 0x1_0000 }

  function EstimateRoc(s: State, sequence: U16): (roc: U32)
  {
    if s.last.None? then s.roc
    else
      var diff := sequence - s.last.value;
      if diff < -32768 then (s.roc + 1) % 0x1_0000_0000
      else if diff > 32768 then (s.roc - 1) % 0x1_0000_0000
      else s.roc
  }

  function Update(s: State, sequence: U16, roc: U32): (s': State)
  {
    if s.last.None? then State(roc, Some(sequence))
    else if IndexOf(roc, sequence) > IndexOf(s.roc, s.last.value) then State(roc, Some(sequence))
    else s
  }

  /** The highest index the state stands for. */
  function Highest(s: State): (i: Index)
    requires s.last.Some?
  {
    IndexOf(s.roc, s.last.value)
  }

  function At(i: Index): (s: State)
    ensures s.last.Some? && Highest(s) == i
  {
    State(Roc(i), Some(Sequence(i)))
  }

  /** Less than half a turn of the sequence number apart, on the circle of 2^48 indices. */
  predicate Close(i: Index, h: Index)
  {
    -0x8000 < i - h < 0x8000 || i - h > SPAN - 0x8000 || i - h < -SPAN + 0x8000
  }

  /** Exactly half a turn apart, with no rollover in between. */
  predicate HalfTurn(i: Index, h: Index)
  {
    (i - h == 0x8000 || i - h == -0x8000) && Roc(i) == Roc(h)
  }

  /** The estimate is the true rollover counter exactly for these indices. */
  lemma EstimateExact(s: State, i: Index)
    requires s.last.Some?
    ensures EstimateRoc(s, Sequence(i)) == Roc(i) <==> Close(i, Highest(s)) || HalfTurn(i, Highest(s))
  {
    var h := Highest(s);
    var diff := Sequence(i) - s.last.value;
    var turns := Roc(i) - s.roc;
    assert i - h == 0x1_0000 * turns + diff;
    assert turns == SPAN / 0x1_0000 - 1 || turns < SPAN / 0x1_0000 - 1;
  }

  /** Accepting an index leaves the larger of it and the one before. */
  lemma UpdateIsMax(s: State, i: Index)
    ensures var s' := Update(s, Sequence(i), Roc(i));
            s'.last.Some? && Highest(s') == if s.last.Some? && Highest(s) > i then Highest(s) else i
  {
  }

  // ----- a sender that steps its sequence number by one

  function Next(s: State, sequence: U16): (s': State) { Update(s, sequence, EstimateRoc(s, sequence)) }

  /** The state after `n` packets numbered from `first` on. */
  function Sent(first: U16, n: nat): (s: State)
  {
    if n == 0 then INITIAL
    else Next(Sent(first, n - 1), Add16(first, n - 1))
  }

  lemma StepByOne(i: Index)
    requires i + 1 < SPAN
    ensures EstimateRoc(At(i), Sequence(i + 1)) == Roc(i + 1)
    ensures Next(At(i), Sequence(i + 1)) == At(i + 1)
  {
    EstimateExact(At(i), i + 1);
  }

  /**
   Packet `n` gets index `first + n`: the indices of a sender grow by one, through every wrap of the sequence number.
   */
  lemma {:induction false} SenderIndices(first: U16, n: nat)
    requires first + n < SPAN
    ensures IndexOf(EstimateRoc(Sent(first, n), Add16(first, n)), Add16(first, n)) == first + n
    ensures Sent(first, n + 1) == At(first + n)
  {
    var i: Index := first + n;
    if n > 0 {
      SenderIndices(first, n - 1);
      SenderStep(Sent(first, n), i - 1, Add16(first, n));
    } else {
      SenderStart(first);
    }
  }

  lemma SenderStart(first: U16)
    ensures IndexOf(EstimateRoc(INITIAL, first), first) == first && Next(INITIAL, first) == At(first)
    ensures Add16(first, 0) == first
  {
  }

  lemma SenderStep(s: State, i: Index, sequence: U16)
    requires i + 1 < SPAN && s == At(i) && sequence == (i + 1) % 0x1_0000
    ensures IndexOf(EstimateRoc(s, sequence), sequence) == i + 1 && Next(s, sequence) == At(i + 1)
  {
    StepByOne(i);
  }

  /** After the last index the estimate starts again at zero, and the state no longer moves. */
  lemma SenderWraps()
    ensures EstimateRoc(At(SPAN - 1), 0) == 0
    ensures Update(At(SPAN - 1), 0, 0) == At(SPAN - 1)
  {
  }
}

/**
 Transport-wide congestion control feedback: the encoder `build_feedback` (src/media/twcc_feedback.rs) and the decoder
 `decode_twcc_feedback` (src/rtp.rs), which live in different files and share only the wire format.
 */
module Twcc {
  import opened Wrappers
  import opened Bytes
  import Modular

  const MAX_STATUSES := 480

  datatype Record = Record(seqno: U16, arrival: U64)

  datatype Feedback = Feedback(sender: U32, media: U32, base: U16, count: U16, referenceTime: nat, feedbackCount: Byte,
                               payload: seq<Byte>)

  /** `None` is a packet reported lost, `Some(d)` one received `d` microseconds after the previous one. */
  type Status = Option<int>

  /** `u64 as i64`. */
  function AsI64(x: U64): (d: int) { if x < 0x8000_0000_0000_0000 then x else x - 0x1_0000_0000_0000_0000 }

  function SaturatingSub(a: U64, b: U64): (d: U64) { if a >= b then a - b else 0 }

  /** 250 microsecond units, truncated toward zero. */
  function Units(d: int): (u: int) { if d >= 0 then d / 250 else -((-d) / 250) }

  /** `i64 as i16`. */
  function AsI16(u: int): (w: int)
    ensures -32768 <= w < 32768 && (w - u) % 0x1_0000 == 0
  {
    (u + 32768) % 0x1_0000 - 32768
  }

  type Sym = x: int | 0 <= x < 4

  /** Two-bit wire symbol: lost, small delta (one byte), large delta (two bytes). */
  function Symbol(s: Status): (sym: Sym)
  {
    match s
    case None => 0
    case Some(d) => if 0 <= Units(d) <= 255 then 1 else 2
  }

  // ----- which packets the report covers

  /** The statuses of consecutive sequence numbers from `expected` on; records out of the window are skipped. */
  function Statuses(records: seq<Record>, expected: U16, previous: U64): (s: seq<Status>)
  {
    if records == [] then []
    else
      var r := records[0];
      var offset := Sub16(r.seqno, expected);
      if offset >= 1000 then Statuses(records[1..], expected, previous)
      else
        Repeated(None, offset) + [Some(AsI64(SaturatingSub(r.arrival, previous)))]
        + Statuses(records[1..], Add16(r.seqno, 1), r.arrival)
  }

  function Truncated<T>(s: seq<T>): (t: seq<T>)
    ensures |t| <= MAX_STATUSES && t <= s
  {
    if |s| > MAX_STATUSES then s[..MAX_STATUSES] else s
  }

  /** The statuses one report carries. */
  function Reported(records: seq<Record>): (s: seq<Status>)
    requires records != []
    ensures |s| <= MAX_STATUSES
  {
    Truncated(Statuses(records, records[0].seqno, records[0].arrival))
  }

  // ----- the wire format

  function Symbols(s: seq<Status>): (syms: seq<Sym>)
    ensures |syms| == |s| && forall i | 0 <= i < |syms| :: syms[i] == Symbol(s[i])
  {
    seq(|s|, i requires 0 <= i < |s| => Symbol(s[i]))
  }

  /** The length of the run of equal symbols at the front. */
  function RunLength(syms: seq<Sym>): (n: nat)
    requires syms != []
    ensures 1 <= n <= |syms| && (forall i | 0 <= i < n :: syms[i] == syms[0]) && (n < |syms| ==> syms[n] != syms[0])
  {
    if |syms| == 1 || syms[1] != syms[0] then 1 else 1 + RunLength(syms[1..])
  }

  /** Base-four digits, most significant first. */
  function Fold4(d: seq<Sym>): (v: nat) { if d == [] then 0 else 4 * Fold4(d[..|d| - 1]) + d[|d| - 1] }

  function Digits4(v: nat, n: nat): (d: seq<Sym>)
    ensures |d| == n
  {
    if n == 0 then [] else Digits4(v / 4, n - 1) + [v % 4]
  }

  /** Seven symbols, filled up with zeros. */
  function Seven(syms: seq<Sym>): (d: seq<Sym>)
    ensures |d| == 7
  {
    if |syms| >= 7 then syms[..7] else syms + Repeated(0, 7 - |syms|)
  }

  function RunChunk(sym: Sym, run: nat): (c: U16) { (sym as int) * 0x2000 + run % 0x2000 }

  function VectorChunk(d: seq<Sym>): (c: U16)
    requires |d| == 7
  {
    Fold4Small(d);
    0xC000 + Fold4(d)
  }

  /** The first chunk and how many symbols it covers: a run of three or more, or else up to seven symbols. */
  function FirstChunk(syms: seq<Sym>): (c: (U16, nat))
    requires syms != []
    ensures 1 <= c.1 <= |syms|
  {
    var run := RunLength(syms);
    if run >= 3 then (RunChunk(syms[0], run), run)
    else (VectorChunk(Seven(syms)), if |syms| <= 7 then |syms| else 7)
  }

  function Chunks(syms: seq<Sym>): (c: seq<U16>)
  {
    if syms == [] then []
    else
      var (c, n) := FirstChunk(syms);
      [c] + Chunks(syms[n..])
  }

  function AllChunkBytes(cs: seq<U16>): (b: seq<Byte>)
  {
    if cs == [] then [] else Be16(cs[0]) + AllChunkBytes(cs[1..])
  }

  function DeltaBytes(s: Status): (b: seq<Byte>)
  {
    match s
    case None => []
    case Some(d) =>
      if 0 <= Units(d) <= 255 then [Units(d)]
      else Be16(AsI16(Units(d)) % 0x1_0000)
  }

  function AllDeltaBytes(s: seq<Status>): (b: seq<Byte>)
  {
    if s == [] then [] else DeltaBytes(s[0]) + AllDeltaBytes(s[1..])
  }

  function Payload(s: seq<Status>): (b: seq<Byte>)
  {
    AllChunkBytes(Chunks(Symbols(s))) + AllDeltaBytes(s)
  }

  // ----- the decoder

  /** The symbols one chunk stands for. */
  function Expand(c: U16): (syms: seq<Sym>)
  {
    if c < 0x8000 then Repeated(c / 0x2000 % 4, c % 0x2000)
    else if c / 0x4000 % 2 == 0 then seq(14, i requires 0 <= i < 14 => if Digits2(c, 14)[i] == 0 then 1 else 0)
    else Digits4(c, 7)
  }

  function Digits2(v: nat, n: nat): (d: seq<Sym>)
    ensures |d| == n
  {
    if n == 0 then [] else Digits2(v / 2, n - 1) + [v % 2]
  }

  /** Chunks until `need` symbols are there or the payload ends; also what follows the chunks read. */
  function ReadChunks(p: seq<Byte>, need: int): (r: (seq<Sym>, seq<Byte>))
    decreases |p|
  {
    if need <= 0 || |p| < 2 then ([], p)
    else
      var syms := Expand(Get16(p, 0));
      var more := ReadChunks(p[2..], need - |syms|);
      (syms + more.0, more.1)
  }

  /** `(sequence number, delta in microseconds)`, `None` for a lost packet; stops where the payload does. */
  function ReadDeltas(p: seq<Byte>, syms: seq<Sym>, seqno: U16): (e: seq<(U16, Option<int>)>)
    decreases |syms|
  {
    if syms == [] then []
    else
      var next := Add16(seqno, 1);
      if syms[0] == 0 then [(seqno, None)] + ReadDeltas(p, syms[1..], next)
      else if syms[0] == 1 then
        if |p| < 1 then [] else [(seqno, Some(250 * (p[0] as int)))] + ReadDeltas(p[1..], syms[1..], next)
      else
        if |p| < 2 then [] else [(seqno, Some(250 * AsI16(Get16(p, 0))))] + ReadDeltas(p[2..], syms[1..], next)
  }

  function Decode(base: U16, count: U16, payload: seq<Byte>): (e: seq<(U16, Option<int>)>)
  {
    var (syms, rest) := ReadChunks(payload, count);
    ReadDeltas(rest, if |syms| > count then syms[..count] else syms, base)
  }

  // ----- decoding undoes encoding

  function Pow4(n: nat): (p: nat) { if n == 0 then 1 else 4 * Pow4(n - 1) }

  lemma {:induction false} DigitsOfFold(d: seq<Sym>, top: nat)
    ensures Fold4(d) < Pow4(|d|)
    ensures Digits4(top * Pow4(|d|) + Fold4(d), |d|) == d
  {
    if d != [] {
      var m := |d| - 1;
      DigitsOfFold(d[..m], top);
      var v := top * Pow4(m) + Fold4(d[..m]);
      assert top * Pow4(|d|) + Fold4(d) == 4 * v + d[m] by { FourTimes(top, Pow4(m)); }
      LastDigit(v, d[m], d[..m]);
      Snoc(d);
    }
  }

  lemma FourTimes(x: int, y: int)
    ensures x * (4 * y) == 4 * (x * y)
  {
  }

  lemma LastDigit(v: nat, s: Sym, front: seq<Sym>)
    requires Digits4(v, |front|) == front
    ensures Digits4(4 * v + s, |front| + 1) == front + [s]
  {
    Modular.Unique(4 * v + s, 4, v, s);
  }

  lemma Pow4Of7()
    ensures Pow4(7) == 0x4000
  {
    assert Pow4(2) == 16;
    assert Pow4(4) == 256;
  }

  lemma Fold4Small(d: seq<Sym>)
    requires |d| == 7
    ensures Fold4(d) < 0x4000
  {
    DigitsOfFold(d, 0);
    Pow4Of7();
  }

  lemma ExpandRun(sym: Sym, run: nat)
    requires run < 0x2000
    ensures Expand(RunChunk(sym, run)) == Repeated(sym, run)
  {
  }

  lemma ExpandVector(d: seq<Sym>)
    requires |d| == 7
    ensures Expand(VectorChunk(d)) == d
  {
    Fold4Small(d);
    Pow4Of7();
    DigitsOfFold(d, 3);
  }

  /** The first chunk stands for the symbols it covers, and for more only when it is the last. */
  lemma FirstChunkExpands(syms: seq<Sym>)
    requires syms != [] && |syms| < 0x2000
    ensures var (c, n) := FirstChunk(syms);
            && n <= |Expand(c)| && Expand(c)[..n] == syms[..n]
            && (|Expand(c)| == n || n == |syms|)
  {
    var run := RunLength(syms);
    if run >= 3 { ExpandRun(syms[0], run); } else { ExpandVector(Seven(syms)); }
  }

  lemma ReadOne(p: seq<Byte>, c: U16, more: seq<Byte>, need: nat)
    requires p == Be16(c) + more && need > 0
    ensures var (s, rest) := ReadChunks(more, need - |Expand(c)|);
            ReadChunks(p, need) == (Expand(c) + s, rest)
  {
    assert Get16(p, 0) == c && p[2..] == more;
  }

  /** Whatever mix of chunks was chosen, reading them gives the symbols back and stops at the first delta byte. */
  lemma {:induction false} ReadChunksInverts(syms: seq<Sym>, p: seq<Byte>, tail: seq<Byte>)
    requires |syms| < 0x2000 && p == AllChunkBytes(Chunks(syms)) + tail
    ensures var (s, rest) := ReadChunks(p, |syms|);
            |s| >= |syms| && s[..|syms|] == syms && rest == tail
  {
    if syms == [] {
      assert p == tail;
    } else {
      var (c, n) := FirstChunk(syms);
      var rest := syms[n..];
      var more := AllChunkBytes(Chunks(rest)) + tail;
      ConsChunk(c, Chunks(rest), tail);
      FirstChunkExpands(syms);
      ReadOne(p, c, more, |syms|);
      ReadChunksInverts(rest, more, tail);
      Glue(Expand(c), ReadChunks(more, |syms| - |Expand(c)|).0, syms, n);
    }
  }

  lemma Glue(e: seq<Sym>, s: seq<Sym>, syms: seq<Sym>, n: nat)
    requires n <= |e| && n <= |syms| && e[..n] == syms[..n]
    requires n == |syms| || (|e| == n && |s| >= |syms| - n && s[..|syms| - n] == syms[n..])
    ensures |e + s| >= |syms| && (e + s)[..|syms|] == syms
  {
    if n < |syms| {
      assert (e + s)[..|syms|] == e + s[..|syms| - n];
      assert syms == syms[..n] + syms[n..];
    }
  }

  lemma ConsChunk(c: U16, cs: seq<U16>, tail: seq<Byte>)
    ensures AllChunkBytes([c] + cs) + tail == Be16(c) + (AllChunkBytes(cs) + tail)
  {
    assert ([c] + cs)[1..] == cs;
    Assoc3(Be16(c), AllChunkBytes(cs), tail);
  }

  /** What a receiver of the report learns about a packet: the delta in whole 250 microsecond units, as an `i16`. */
  function Rounded(s: Status): (d: Option<int>)
  {
    match s
    case None => None
    case Some(d) => Some(250 * AsI16(Units(d)))
  }

  function Entries(s: seq<Status>, base: U16): (e: seq<(U16, Option<int>)>)
    ensures |e| == |s|
  {
    seq(|s|, i requires 0 <= i < |s| => (Add16(base, i), Rounded(s[i])))
  }

  lemma {:induction false} ReadDeltasInverts(s: seq<Status>, p: seq<Byte>, tail: seq<Byte>, base: U16)
    requires p == AllDeltaBytes(s) + tail
    ensures ReadDeltas(p, Symbols(s), base) == Entries(s, base)
  {
    if s != [] {
      var next := Add16(base, 1);
      var more := AllDeltaBytes(s[1..]) + tail;
      Assoc3(DeltaBytes(s[0]), AllDeltaBytes(s[1..]), tail);
      ReadDeltasInverts(s[1..], more, tail, next);
      OneDelta(s[0], p, more);
      EntriesCons(s, base);
    }
  }

  lemma EntriesCons(s: seq<Status>, base: U16)
    requires s != []
    ensures Entries(s, base) == [(base, Rounded(s[0]))] + Entries(s[1..], Add16(base, 1))
    ensures Symbols(s)[1..] == Symbols(s[1..])
  {
    var next := Add16(base, 1);
    forall i | 0 < i < |s| ensures Entries(s, base)[i] == Entries(s[1..], next)[i - 1] {
      Modular.AddTurns(next + (i - 1), 0x1_0000, (base + 1) / 0x1_0000);
    }
  }

  lemma OneDelta(s: Status, p: seq<Byte>, more: seq<Byte>)
    requires p == DeltaBytes(s) + more
    ensures Symbol(s) == 0 ==> p == more && Rounded(s) == None
    ensures Symbol(s) == 1 ==> |p| >= 1 && p[1..] == more && Rounded(s) == Some(250 * (p[0] as int))
    ensures Symbol(s) == 2 ==> |p| >= 2 && p[2..] == more && Rounded(s) == Some(250 * AsI16(Get16(p, 0)))
    ensures Symbol(s) <= 2
  {
  }

  /** Decoding any report, with any bytes after it, gives back every status it carries. */
  lemma DecodeInvertsEncode(s: seq<Status>, base: U16, pad: seq<Byte>)
    requires |s| <= MAX_STATUSES
    ensures Decode(base, |s|, Payload(s) + pad) == Entries(s, base)
  {
    var deltas := AllDeltaBytes(s);
    var chunks := AllChunkBytes(Chunks(Symbols(s)));
    Assoc3(chunks, deltas, pad);
    ReadChunksInverts(Symbols(s), Payload(s) + pad, deltas + pad);
    var syms := ReadChunks(Payload(s) + pad, |s|).0;
    assert (if |syms| > |s| then syms[..|s|] else syms) == Symbols(s) by { assert syms == syms[..|syms|]; }
    ReadDeltasInverts(s, deltas + pad, pad, base);
  }

  // ----- the code of the encoder

  /** What handling record `i` adds to the statuses collected so far. */
  lemma StatusStep(before: seq<Status>, records: seq<Record>, i: nat, expected: U16, previous: U64)
    requires i < |records|
    ensures var r := records[i];
            var offset := Sub16(r.seqno, expected);
            before + Statuses(records[i..], expected, previous) ==
            if offset >= 1000 then before + Statuses(records[i + 1..], expected, previous)
            else (before + Repeated(None, offset) + [Some(AsI64(SaturatingSub(r.arrival, previous)))])
                 + Statuses(records[i + 1..], Add16(r.seqno, 1), r.arrival)
  {
    var r := records[i];
    assert records[i..][1..] == records[i + 1..];
    Regroup(before, Repeated(None, Sub16(r.seqno, expected)), [Some(AsI64(SaturatingSub(r.arrival, previous)))],
            Statuses(records[i + 1..], Add16(r.seqno, 1), r.arrival));
  }

  method PushLost(before: seq<Status>, n: nat) returns (statuses: seq<Status>)
    ensures statuses == before + Repeated(None, n)
  {
    statuses := before;
    for k := 0 to n
      invariant statuses == before + Repeated(None, k)
    {
      statuses := statuses + [None];
    }
  }

  method CollectStatuses(records: seq<Record>) returns (statuses: seq<Status>)
    requires records != []
    ensures statuses == Statuses(records, records[0].seqno, records[0].arrival)
  {
    statuses := [];
    var expected: U16 := records[0].seqno;
    var previous: U64 := records[0].arrival;
    ghost var all := Statuses(records, expected, previous);
    assert records[0..] == records;
    for i := 0 to |records|
      invariant statuses + Statuses(records[i..], expected, previous) == all
    {
      var r := records[i];
      StatusStep(statuses, records, i, expected, previous);
      var offset: nat := Sub16(r.seqno, expected);
      if offset < 1000 {
        statuses := PushLost(statuses, offset);
        statuses := statuses + [Some(AsI64(SaturatingSub(r.arrival, previous)))];
        previous := r.arrival;
        expected := Add16(r.seqno, 1);
      }
    }
  }

  lemma Regroup<T>(a: seq<T>, b: seq<T>, c: seq<T>, d: seq<T>)
    ensures a + (b + c + d) == (a + b + c) + d
  {
  }

  method BuildVector(syms: seq<Sym>) returns (chunk: U16)
    ensures chunk == VectorChunk(Seven(syms))
  {
    ghost var d := Seven(syms);
    Pow4Of7();
    var c: nat := 0xC000;
    for i := 0 to 7
      invariant c == 0xC000 + Fold4(d[..i]) * Pow4(7 - i)
    {
      var s := if i < |syms| then syms[i] else 0;
      assert d[..i + 1][..i] == d[..i] && d[i] == s;
      VectorStep(Fold4(d[..i]), s, Pow4(6 - i));
      c := c + (s as nat) * Pow4(6 - i);
    }
    assert d[..7] == d;
    assert c == VectorChunk(d);
    chunk := c;
  }

  lemma VectorStep(f: nat, s: nat, p: nat)
    ensures f * (4 * p) + s * p == (4 * f + s) * p
  {
  }

  /** The chunk for the statuses from `idx` on, and how far it moves `idx` (past the end when a vector is not full). */
  method NextChunk(statuses: seq<Status>, idx: nat) returns (chunk: U16, n: nat)
    requires idx < |statuses|
    ensures var (c, covered) := FirstChunk(Symbols(statuses)[idx..]);
            chunk == c && (n == covered || (n == 7 && covered == |statuses| - idx < 7))
  {
    ghost var rest := Symbols(statuses)[idx..];
    var sym := Symbol(statuses[idx]);
    var run := 1;
    while idx + run < |statuses| && Symbol(statuses[idx + run]) == sym
      invariant 1 <= run <= |rest|
      invariant forall k | 0 <= k < run :: rest[k] == sym
    {
      assert rest[run] == Symbol(statuses[idx + run]);
      run := run + 1;
    }
    RunLengthIs(rest, run);
    if run >= 3 {
      chunk := RunChunk(sym, run);
      n := run;
    } else {
      var syms := Symbols(statuses[idx..]);
      assert syms == rest;
      chunk := BuildVector(syms);
      n := 7;
    }
  }

  method WriteChunks(statuses: seq<Status>) returns (payload: seq<Byte>)
    ensures payload == AllChunkBytes(Chunks(Symbols(statuses)))
  {
    ghost var syms := Symbols(statuses);
    ghost var goal := AllChunkBytes(Chunks(syms));
    payload := [];
    var idx: nat := 0;
    assert [] + goal == goal && syms[0..] == syms;
    while idx < |statuses|
      invariant StillToWrite(goal, payload, From(syms, idx))
      decreases |statuses| - idx
    {
      payload, idx := WriteChunk(statuses, idx, payload, syms, goal);
    }
    WriteEnd(goal, payload);
  }

  /** The symbols from `idx` on; a vector that is not full moves the index past the end. */
  ghost function From(syms: seq<Sym>, idx: nat): (rest: seq<Sym>) { if idx <= |syms| then syms[idx..] else [] }

  /** One turn of the chunk loop. */
  method WriteChunk(statuses: seq<Status>, idx: nat, payload: seq<Byte>, ghost syms: seq<Sym>, ghost goal: seq<Byte>)
    returns (payload': seq<Byte>, idx': nat)
    requires idx < |statuses| && syms == Symbols(statuses) && StillToWrite(goal, payload, From(syms, idx))
    ensures idx' > idx && StillToWrite(goal, payload', From(syms, idx'))
  {
    var chunk, n := NextChunk(statuses, idx);
    ghost var covered := FirstChunk(syms[idx..]).1;
    WriteStep(goal, payload, syms[idx..], chunk, covered);
    Remaining(syms, idx, n, covered);
    payload' := payload + Be16(chunk);
    idx' := idx + n;
  }

  lemma Remaining(syms: seq<Sym>, idx: nat, n: nat, covered: nat)
    requires idx <= |syms| && covered <= |syms| - idx && (n == covered || (n > covered && covered == |syms| - idx))
    ensures syms[idx..][covered..] == From(syms, idx + n)
  {
  }

  lemma WriteEnd(goal: seq<Byte>, payload: seq<Byte>)
    requires StillToWrite(goal, payload, [])
    ensures payload == goal
  {
    assert payload + [] == payload;
  }

  /** What has been written, with the chunks of the remaining symbols, is the goal. */
  ghost predicate StillToWrite(goal: seq<Byte>, payload: seq<Byte>, syms: seq<Sym>)
  {
    payload + AllChunkBytes(Chunks(syms)) == goal
  }

  lemma WriteStep(goal: seq<Byte>, payload: seq<Byte>, syms: seq<Sym>, chunk: U16, n: nat)
    requires syms != [] && StillToWrite(goal, payload, syms) && FirstChunk(syms) == (chunk, n)
    ensures StillToWrite(goal, payload + Be16(chunk), syms[n..])
  {
    Assoc3(payload, Be16(chunk), AllChunkBytes(Chunks(syms[n..])));
    assert Chunks(syms)[1..] == Chunks(syms[n..]);
  }

  method WriteDeltas(statuses: seq<Status>) returns (payload: seq<Byte>)
    ensures payload == AllDeltaBytes(statuses)
  {
    payload := [];
    assert statuses[0..] == statuses;
    for i := 0 to |statuses|
      invariant payload + AllDeltaBytes(statuses[i..]) == AllDeltaBytes(statuses)
    {
      assert statuses[i..][1..] == statuses[i + 1..];
      Assoc3(payload, DeltaBytes(statuses[i]), AllDeltaBytes(statuses[i + 1..]));
      match statuses[i]
      case None =>
      case Some(us) =>
        if Symbol(statuses[i]) == 1 {
          payload := payload + [Units(us)];
        } else {
          payload := payload + Be16(AsI16(Units(us)) % 0x1_0000);
        }
    }
  }

  /** The first arrival in 64 ms units, cut to `u32` and then to 24 bits. */
  function ReferenceTime(arrival: U64): (t: nat)
    ensures t == arrival / 64000 % 0x100_0000
  {
    Modular.ModMod(arrival / 64000, 0x1_0000_0000, 0x100_0000);
    arrival / 64000 % 0x1_0000_0000 % 0x100_0000
  }

  /** One report for a window of records; nothing for no records. `feedbackSeq` numbers the reports. */
  method BuildFeedback(media: U32, sender: U32, records: seq<Record>, feedbackSeq: U16) returns (f: Option<Feedback>)
    ensures records == [] ==> f == None
    ensures records != [] ==>
              && f.Some? && f.value.sender == sender && f.value.media == media && f.value.base == records[0].seqno
              && f.value.count == |Reported(records)| && f.value.payload == Payload(Reported(records))
              && f.value.referenceTime == ReferenceTime(records[0].arrival)
              && f.value.feedbackCount == feedbackSeq % 0x100
  {
    if records == [] {
      return None;
    }
    var statuses := CollectStatuses(records);
    if |statuses| > MAX_STATUSES {
      statuses := statuses[..MAX_STATUSES];
    }
    var chunks := WriteChunks(statuses);
    var deltas := WriteDeltas(statuses);
    f := Some(Feedback(sender, media, records[0].seqno, |statuses|, ReferenceTime(records[0].arrival),
                       feedbackSeq % 0x100, chunks + deltas));
  }

  lemma RunLengthIs(syms: seq<Sym>, n: nat)
    requires 1 <= n <= |syms| && (forall k | 0 <= k < n :: syms[k] == syms[0]) && (n < |syms| ==> syms[n] != syms[0])
    ensures RunLength(syms) == n
  {
    assert !(n < RunLength(syms)) && !(RunLength(syms) < n);
  }

  // ----- the code of the decoder

  lemma {:induction false} Digits4At(v: nat, n: nat, i: nat)
    requires i < n
    ensures Pow4(n - 1 - i) > 0 && Digits4(v, n)[i] == v / Pow4(n - 1 - i) % 4
  {
    if i < n - 1 {
      Digits4At(v / 4, n - 1, i);
      DivDiv(v, 4, Pow4(n - 2 - i));
    }
  }

  lemma {:induction false} Digits2At(v: nat, n: nat, i: nat)
    requires i < n
    ensures Digits2(v, n)[i] == v / Modular.Pow2(n - 1 - i) % 2
  {
    if i < n - 1 {
      Digits2At(v / 2, n - 1, i);
      DivDiv(v, 2, Modular.Pow2(n - 2 - i));
    }
  }

  lemma DivDiv(v: nat, a: nat, b: nat)
    requires a > 0 && b > 0
    ensures a * b > 0 && v / a / b == v / (a * b)
  {
    var q, r := v / a / b, v / a % b;
    assert v == a * (b * q + r) + v % a;
    assert a * (b * q + r) == (a * b) * q + a * r by { Modular.Assoc(a, b, q); }
    assert a * r <= a * (b - 1) by { Modular.Monotone(a, r, b - 1); }
    assert a * (b - 1) == a * b - a;
    Modular.Unique(v, a * b, q, a * r + v % a);
  }

  method ExpandChunk(chunk: U16) returns (syms: seq<Sym>)
    ensures syms == Expand(chunk)
  {
    syms := [];
    if chunk < 0x8000 {
      var run := chunk % 0x2000;
      for i := 0 to run
        invariant syms == Repeated(chunk / 0x2000 % 4, i)
      {
        syms := syms + [chunk / 0x2000 % 4];
      }
    } else if chunk / 0x4000 % 2 == 0 {
      for i := 0 to 14
        invariant syms == Expand(chunk)[..i]
      {
        Digits2At(chunk, 14, i);
        var bit := chunk / Modular.Pow2(13 - i) % 2;
        syms := syms + [if bit == 0 then 1 else 0];
      }
    } else {
      for i := 0 to 7
        invariant syms == Expand(chunk)[..i]
      {
        Digits4At(chunk, 7, i);
        syms := syms + [chunk / Pow4(6 - i) % 4];
      }
    }
  }

  method ReadSymbols(payload: seq<Byte>, count: U16) returns (symbols: seq<Sym>, offset: nat)
    ensures offset <= |payload|
    ensures symbols == ReadChunks(payload, count).0 && payload[offset..] == ReadChunks(payload, count).1
  {
    symbols, offset := [], 0;
    ghost var all := ReadChunks(payload, count);
    assert [] + all.0 == all.0 && payload[0..] == payload;
    while |symbols| < count && offset + 1 < |payload|
      invariant offset <= |payload| && StillToRead(all, symbols, payload[offset..], count - |symbols|)
      decreases |payload| - offset
    {
      var syms := ReadChunk(payload, offset, all, symbols, count);
      symbols := symbols + syms;
      offset := offset + 2;
    }
    ReadEnd(all, symbols, payload[offset..], count - |symbols|);
  }

  /** One chunk of the first pass. */
  method ReadChunk(payload: seq<Byte>, offset: nat, ghost all: (seq<Sym>, seq<Byte>), ghost symbols: seq<Sym>,
                   ghost count: U16) returns (syms: seq<Sym>)
    requires offset + 2 <= |payload| && |symbols| < count
    requires StillToRead(all, symbols, payload[offset..], count - |symbols|)
    ensures StillToRead(all, symbols + syms, payload[offset + 2..], count - |symbols + syms|)
  {
    var chunk := Get16(payload, offset);
    SliceGet(payload, offset);
    syms := ExpandChunk(chunk);
    ReadStep(all, symbols, payload[offset..], count - |symbols|, chunk);
  }

  lemma SliceGet(b: seq<Byte>, at: nat)
    requires at + 2 <= |b|
    ensures Get16(b[at..], 0) == Get16(b, at) && b[at..][2..] == b[at + 2..]
  {
  }

  /** What has been read so far, with what is still to come, is what there is to read. */
  ghost predicate StillToRead(all: (seq<Sym>, seq<Byte>), symbols: seq<Sym>, rest: seq<Byte>, need: int)
  {
    symbols + ReadChunks(rest, need).0 == all.0 && ReadChunks(rest, need).1 == all.1
  }

  lemma ReadStep(all: (seq<Sym>, seq<Byte>), symbols: seq<Sym>, rest: seq<Byte>, need: int, chunk: U16)
    requires StillToRead(all, symbols, rest, need) && need > 0 && |rest| >= 2 && chunk == Get16(rest, 0)
    ensures StillToRead(all, symbols + Expand(chunk), rest[2..], need - |Expand(chunk)|)
  {
    Assoc3(symbols, Expand(chunk), ReadChunks(rest[2..], need - |Expand(chunk)|).0);
  }

  lemma ReadEnd(all: (seq<Sym>, seq<Byte>), symbols: seq<Sym>, rest: seq<Byte>, need: int)
    requires StillToRead(all, symbols, rest, need) && (need <= 0 || |rest| < 2)
    ensures symbols == all.0 && rest == all.1
  {
    assert symbols + [] == symbols;
  }

  method DecodeFeedback(f: Feedback) returns (out: seq<(U16, Option<int>)>)
    ensures out == Decode(f.base, f.count, f.payload)
  {
    var symbols, offset := ReadSymbols(f.payload, f.count);
    if |symbols| > f.count {
      symbols := symbols[..f.count];
    }
    out := DecodeDeltas(f.payload, offset, symbols, f.base);
  }

  /** The second pass: one entry per symbol, until a delta is cut off by the end of the payload. */
  method DecodeDeltas(payload: seq<Byte>, start: nat, symbols: seq<Sym>, base: U16)
    returns (out: seq<(U16, Option<int>)>)
    requires start <= |payload|
    ensures out == ReadDeltas(payload[start..], symbols, base)
  {
    out := [];
    var offset: nat := start;
    assert symbols[0..] == symbols && Add16(base, 0) == base;
    ghost var all := ReadDeltas(payload[start..], symbols, base);
    var i := 0;
    while i < |symbols|
      invariant i <= |symbols| && offset <= |payload|
      invariant out + ReadDeltas(payload[offset..], symbols[i..], Add16(base, i)) == all
    {
      var seqno := Add16(base, i);
      DeltaStep(payload, offset, symbols, i, base);
      NextSeqno(base, i);
      if symbols[i] == 0 {
        Assoc3(out, [(seqno, None)], ReadDeltas(payload[offset..], symbols[i + 1..], Add16(base, i + 1)));
        out := out + [(seqno, None)];
      } else if symbols[i] == 1 {
        if offset >= |payload| {
          return;
        }
        var d := Some(250 * (payload[offset] as int));
        Assoc3(out, [(seqno, d)], ReadDeltas(payload[offset + 1..], symbols[i + 1..], Add16(base, i + 1)));
        offset := offset + 1;
        out := out + [(seqno, d)];
      } else {
        if offset + 1 >= |payload| {
          return;
        }
        var d := Some(250 * AsI16(Get16(payload, offset)));
        Assoc3(out, [(seqno, d)], ReadDeltas(payload[offset + 2..], symbols[i + 1..], Add16(base, i + 1)));
        offset := offset + 2;
        out := out + [(seqno, d)];
      }
      i := i + 1;
    }
  }

  lemma DeltaStep(payload: seq<Byte>, offset: nat, symbols: seq<Sym>, i: nat, base: U16)
    requires i < |symbols| && offset <= |payload|
    ensures var seqno := Add16(base, i);
            ReadDeltas(payload[offset..], symbols[i..], seqno) ==
            if symbols[i] == 0 then [(seqno, None)] + ReadDeltas(payload[offset..], symbols[i + 1..], Add16(seqno, 1))
            else if symbols[i] == 1 then
              if offset >= |payload| then []
              else
                [(seqno, Some(250 * (payload[offset] as int)))]
                + ReadDeltas(payload[offset + 1..], symbols[i + 1..], Add16(seqno, 1))
            else
              if offset + 1 >= |payload| then []
              else
                [(seqno, Some(250 * AsI16(Get16(payload, offset))))]
                + ReadDeltas(payload[offset + 2..], symbols[i + 1..], Add16(seqno, 1))
  {
    var p := payload[offset..];
    assert symbols[i..][1..] == symbols[i + 1..];
    if |p| >= 1 { assert p[1..] == payload[offset + 1..]; }
    if |p| >= 2 { assert p[2..] == payload[offset + 2..]; }
  }

  lemma NextSeqno(base: U16, i: nat)
    ensures Add16(Add16(base, i), 1) == Add16(base, i + 1)
  {
    Modular.Successor(base + i, 0x1_0000);
  }

  // ----- main results

  /**
   Whatever the records, decoding the report built from them, with any bytes appended to its payload, gives the sequence
   numbers from the first record's on, each lost or with its delta as an `i16` number of 250 microsecond units.
   */
  lemma ReportRoundTrip(records: seq<Record>, pad: seq<Byte>)
    requires records != []
    ensures var s := Reported(records);
            Decode(records[0].seqno, |s|, Payload(s) + pad) == Entries(s, records[0].seqno)
  {
    DecodeInvertsEncode(Reported(records), records[0].seqno, pad);
  }

  /** The deltas that the wire can carry: below 8.192 s, and above -8.19225 s. */
  predicate Representable(d: int) { -8_192_250 < d < 8_192_000 }

  lemma AsI16Exact(u: int)
    ensures AsI16(u) == u <==> -32768 <= u <= 32767
  {
  }

  /**
   The exact condition: every received packet's delta comes back rounded to 250 microseconds if and only if every
   delta in the report is representable. Out of range the clamp in `delta_size` has no effect, because the unclamped
   value is written.
   */
  lemma DeltasExactIff(records: seq<Record>, pad: seq<Byte>)
    requires records != []
    ensures var s := Reported(records);
            var e := Decode(records[0].seqno, |s|, Payload(s) + pad);
            && |e| == |s|
            && ((forall i | 0 <= i < |s| && s[i].Some? :: e[i].1 == Some(250 * Units(s[i].value)))
                <==> (forall i | 0 <= i < |s| && s[i].Some? :: Representable(s[i].value)))
  {
    ReportRoundTrip(records, pad);
    var s := Reported(records);
    var e := Decode(records[0].seqno, |s|, Payload(s) + pad);
    forall i | 0 <= i < |s| && s[i].Some?
      ensures e[i].1 == Some(250 * Units(s[i].value)) <==> Representable(s[i].value)
    {
      assert e[i] == (Add16(records[0].seqno, i), Rounded(s[i]));
      AsI16Exact(Units(s[i].value));
    }
  }

  /** A delta one unit too large: packets 8.192 s apart are reported, and read back as -8.192 s apart. */
  lemma LargeDeltaWraps()
    ensures Reported([Record(0, 0), Record(1, 8_192_000)]) == [Some(0), Some(8_192_000)]
    ensures Decode(0, 2, Payload([Some(0), Some(8_192_000)])) == [(0, Some(0)), (1, Some(-8_192_000))]
  {
    LargeDeltaReported();
    var s: seq<Status> := [Some(0), Some(8_192_000)];
    DecodeInvertsEncode(s, 0, []);
    assert Payload(s) + [] == Payload(s);
    assert AsI16(32768) == -32768;
  }

  lemma LargeDeltaReported()
    ensures Reported([Record(0, 0), Record(1, 8_192_000)]) == [Some(0), Some(8_192_000)]
  {
    var records := [Record(0, 0), Record(1, 8_192_000)];
    assert records[1..] == [Record(1, 8_192_000)] && records[1..][1..] == [];
    assert Statuses(records[1..], 1, 0) == [Some(8_192_000)];
    assert Statuses(records, 0, 0) == Repeated(None, 0) + [Some(0)] + [Some(8_192_000)];
  }

  // ----- which record a status comes from

  /** The record that is reported, and where. */
  datatype Mark = Mark(record: nat, position: nat)

  /** The records from `k` on that are reported, the first of which could stand at position `at`. */
  function Marks(records: seq<Record>, k: nat, expected: U16, at: nat): (ms: seq<Mark>)
    requires k <= |records|
    decreases |records| - k
  {
    if k == |records| then []
    else
      var offset := Sub16(records[k].seqno, expected);
      if offset >= 1000 then Marks(records, k + 1, expected, at)
      else [Mark(k, at + offset)] + Marks(records, k + 1, Add16(records[k].seqno, 1), at + offset + 1)
  }

  /** The time from the record reported before, or from `previous`. */
  function Elapsed(records: seq<Record>, ms: seq<Mark>, n: nat, previous: U64): (d: int)
    requires n < |ms| && ms[n].record < |records| && (n > 0 ==> ms[n - 1].record < |records|)
  {
    AsI64(SaturatingSub(records[ms[n].record].arrival, if n == 0 then previous else records[ms[n - 1].record].arrival))
  }

  lemma StatusesStep(records: seq<Record>, k: nat, expected: U16, previous: U64, offset: nat)
    requires k < |records| && offset == Sub16(records[k].seqno, expected) < 1000
    ensures var s := Statuses(records[k..], expected, previous);
            var rest := Statuses(records[k + 1..], Add16(records[k].seqno, 1), records[k].arrival);
            && |s| == offset + 1 + |rest| && s[offset + 1..] == rest
            && s[offset] == Some(AsI64(SaturatingSub(records[k].arrival, previous)))
            && forall i | 0 <= i < offset :: s[i] == None
  {
    assert records[k..][0] == records[k] && records[k..][1..] == records[k + 1..];
  }

  /** Mark `n` is a record from `k` on, at its sequence number, with the time since the record reported before it. */
  ghost predicate MarkOk(records: seq<Record>, s: seq<Status>, ms: seq<Mark>, n: nat, k: nat, expected: U16,
                         previous: U64, at: nat)
  {
    && n < |ms| && k <= ms[n].record < |records| && at <= ms[n].position < at + |s|
    && records[ms[n].record].seqno == Add16(expected, ms[n].position - at)
    && (n > 0 ==> ms[n - 1].record < ms[n].record && ms[n - 1].position < ms[n].position)
    && s[ms[n].position - at] == Some(Elapsed(records, ms, n, previous))
  }

  lemma {:induction false} MarkMeans(records: seq<Record>, k: nat, expected: U16, previous: U64, at: nat, n: nat,
                                     s: seq<Status>, ms: seq<Mark>)
    requires k <= |records| && s == Statuses(records[k..], expected, previous) && ms == Marks(records, k, expected, at)
    requires n < |ms|
    ensures MarkOk(records, s, ms, n, k, expected, previous, at)
    decreases |records| - k
  {
    var offset := Sub16(records[k].seqno, expected);
    if offset >= 1000 {
      RecordSkipped(records, k, expected, previous, at);
      MarkMeans(records, k + 1, expected, previous, at, n, s, ms);
    } else {
      var (next, arrival) := (Add16(records[k].seqno, 1), records[k].arrival);
      var (rest, later) := (Statuses(records[k + 1..], next, arrival), Marks(records, k + 1, next, at + offset + 1));
      RecordReported(records, k, expected, previous, at, offset, s, rest, ms, later);
      if n == 0 {
        FirstMark(records, s, later, k, expected, offset, previous, at);
      } else {
        MarkMeans(records, k + 1, next, arrival, at + offset + 1, n - 1, rest, later);
        LaterMark(records, s, rest, later, n, k, expected, offset, previous, at);
      }
    }
  }

  /** A record out of the window changes nothing. */
  lemma RecordSkipped(records: seq<Record>, k: nat, expected: U16, previous: U64, at: nat)
    requires k < |records| && Sub16(records[k].seqno, expected) >= 1000
    ensures Statuses(records[k..], expected, previous) == Statuses(records[k + 1..], expected, previous)
    ensures Marks(records, k, expected, at) == Marks(records, k + 1, expected, at)
  {
    assert records[k..][0] == records[k] && records[k..][1..] == records[k + 1..];
  }

  /** A record in the window adds the lost ones before it, and itself. */
  lemma RecordReported(records: seq<Record>, k: nat, expected: U16, previous: U64, at: nat, offset: nat,
                       s: seq<Status>, rest: seq<Status>, ms: seq<Mark>, later: seq<Mark>)
    requires k < |records| && offset == Sub16(records[k].seqno, expected) < 1000
    requires s == Statuses(records[k..], expected, previous) && ms == Marks(records, k, expected, at)
    requires rest == Statuses(records[k + 1..], Add16(records[k].seqno, 1), records[k].arrival)
    requires later == Marks(records, k + 1, Add16(records[k].seqno, 1), at + offset + 1)
    ensures |s| == offset + 1 + |rest| && s[offset + 1..] == rest && ms == [Mark(k, at + offset)] + later
    ensures s[offset] == Some(AsI64(SaturatingSub(records[k].arrival, previous)))
  {
    StatusesStep(records, k, expected, previous, offset);
  }

  lemma FirstMark(records: seq<Record>, s: seq<Status>, later: seq<Mark>, k: nat, expected: U16, offset: nat,
                  previous: U64, at: nat)
    requires k < |records| && offset == Sub16(records[k].seqno, expected) < |s|
    requires s[offset] == Some(AsI64(SaturatingSub(records[k].arrival, previous)))
    ensures MarkOk(records, s, [Mark(k, at + offset)] + later, 0, k, expected, previous, at)
  {
    SubThenAdd(records[k].seqno, expected, 0);
  }

  /** A later mark, seen from one record before. */
  lemma LaterMark(records: seq<Record>, s: seq<Status>, rest: seq<Status>, later: seq<Mark>, n: nat, k: nat,
                  expected: U16, offset: nat, previous: U64, at: nat)
    requires k < |records| && n > 0 && offset == Sub16(records[k].seqno, expected)
    requires |s| == offset + 1 + |rest| && s[offset + 1..] == rest
    requires MarkOk(records, rest, later, n - 1, k + 1, Add16(records[k].seqno, 1), records[k].arrival, at + offset + 1)
    ensures MarkOk(records, s, [Mark(k, at + offset)] + later, n, k, expected, previous, at)
  {
    var m := later[n - 1];
    LaterNumber(records[k].seqno, expected, m.position - at);
    assert s[m.position - at] == rest[m.position - (at + offset + 1)];
    assert ([Mark(k, at + offset)] + later)[n] == m;
  }

  /** Every status that says received is that of a reported record. */
  lemma {:induction false} StatusMarked(records: seq<Record>, k: nat, expected: U16, previous: U64, at: nat, i: nat)
    returns (n: nat)
    requires k <= |records| && i < |Statuses(records[k..], expected, previous)|
    requires Statuses(records[k..], expected, previous)[i].Some?
    ensures n < |Marks(records, k, expected, at)| && Marks(records, k, expected, at)[n].position == at + i
    decreases |records| - k
  {
    var r := records[k];
    var offset := Sub16(r.seqno, expected);
    if offset >= 1000 {
      assert records[k..][0] == r && records[k..][1..] == records[k + 1..];
      n := StatusMarked(records, k + 1, expected, previous, at, i);
    } else {
      StatusesStep(records, k, expected, previous, offset);
      if i == offset {
        n := 0;
      } else {
        n := StatusMarked(records, k + 1, Add16(r.seqno, 1), r.arrival, at + offset + 1, i - offset - 1);
        n := n + 1;
      }
    }
  }

  /**
   A status that says received stands at the sequence number of a reported record, and its value is the time from the
   arrival of the record reported before it, or from its own arrival if it is the first.
   */
  lemma StatusNamesRecord(records: seq<Record>, i: nat) returns (n: nat)
    requires records != [] && i < |Reported(records)| && Reported(records)[i].Some?
    ensures var ms := Marks(records, 0, records[0].seqno, 0);
            && n < |ms| && ms[n].position == i && ms[n].record < |records|
            && records[ms[n].record].seqno == Add16(records[0].seqno, i)
            && (n > 0 ==> ms[n - 1].record < ms[n].record && ms[n - 1].position < i)
            && Reported(records)[i] == Some(Elapsed(records, ms, n, records[0].arrival))
  {
    var (base, first) := (records[0].seqno, records[0].arrival);
    var (s, ms) := (Statuses(records[0..], base, first), Marks(records, 0, base, 0));
    assert records[0..] == records && Reported(records)[i] == s[i];
    n := StatusMarked(records, 0, base, first, 0, i);
    MarkMeans(records, 0, base, first, 0, n, s, ms);
    assert MarkOk(records, s, ms, n, 0, base, first, 0);
  }

  lemma LaterNumber(seqno: U16, expected: U16, i: nat)
    requires i > Sub16(seqno, expected)
    ensures Add16(Add16(seqno, 1), i - Sub16(seqno, expected) - 1) == Add16(expected, i)
  {
    var offset := Sub16(seqno, expected);
    SubThenAdd(seqno, expected, i - offset);
    Modular.AddTurns(Add16(seqno, 1) + (i - offset - 1), 0x1_0000, (seqno + 1) / 0x1_0000);
  }

  lemma SubThenAdd(a: U16, b: U16, n: nat)
    ensures Add16(b, Sub16(a, b) + n) == Add16(a, n)
  {
    Modular.AddTurns(b + Sub16(a, b) + n, 0x1_0000, (a - b) / 0x1_0000);
  }
}

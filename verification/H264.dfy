/**
 H.264 over RTP (RFC 6184): `H264Payloader` (src/media/packetizer.rs) splits a NAL unit into FU-A fragments,
 `H264Depacketizer` (src/media/depacketizer.rs) puts fragments back together. Reassembly is judged over whole
 delivery histories.
 */
module H264 {
  import opened Wrappers
  import opened Bytes
  import Modular

  datatype Packet = Packet(seqno: U16, timestamp: U32, marker: bool, payload: seq<Byte>)

  /** A NAL unit handed to the application. */
  datatype Sample = Sample(data: seq<Byte>, timestamp: U32, last: bool)

  // ----- the payloader

  const FU_A := 28
  const STAP_A := 24

  function NalType(h: Byte): (t: nat) { h % 32 }

  /** The two NRI bits in place. */
  function Nri(h: Byte): (n: nat) { h / 32 % 4 * 32 }

  /** The fragment that carries bytes `from` to `to` of the NAL unit's body. */
  function Fragment(nal: seq<Byte>, from: nat, to: nat): (f: seq<Byte>)
    requires nal != [] && from <= to < |nal|
    ensures |f| == 2 + (to - from)
  {
    [Nri(nal[0]) + FU_A, NalType(nal[0]) + (if from == 0 then 128 else 0) + (if to == |nal| - 1 then 64 else 0)]
    + nal[1 + from..1 + to]
  }

  function Least(a: nat, b: nat): (m: nat) { if a <= b then a else b }

  /** The most body bytes a fragment carries. */
  function MaxFragment(mtu: nat): (n: nat)
    ensures n > 0
  {
    if mtu <= 3 then 1 else mtu - 2
  }

  /** Where the fragments of a body of `total` bytes are cut, from `offset` on. */
  function Cuts(total: nat, offset: nat, size: nat): (c: seq<(nat, nat)>)
    requires size > 0
    decreases if offset < total then total - offset else 0
  {
    if offset >= total then []
    else
      var to := offset + Least(total - offset, size);
      [(offset, to)] + Cuts(total, to, size)
  }

  predicate CutsFit(c: seq<(nat, nat)>, total: nat) { forall i | 0 <= i < |c| :: c[i].0 < c[i].1 <= total }

  lemma {:induction false} CutsInside(total: nat, offset: nat, size: nat)
    requires size > 0
    ensures CutsFit(Cuts(total, offset, size), total)
    decreases if offset < total then total - offset else 0
  {
    if offset < total { CutsInside(total, offset + Least(total - offset, size), size); }
  }

  function FragmentsAt(nal: seq<Byte>, cuts: seq<(nat, nat)>): (f: seq<seq<Byte>>)
    requires nal != [] && CutsFit(cuts, |nal| - 1)
    ensures |f| == |cuts|
  {
    seq(|cuts|, i requires 0 <= i < |cuts| => Fragment(nal, cuts[i].0, cuts[i].1))
  }

  lemma FragmentsSnoc(nal: seq<Byte>, cuts: seq<(nat, nat)>, c: (nat, nat))
    requires nal != [] && CutsFit(cuts, |nal| - 1) && c.0 < c.1 <= |nal| - 1
    ensures CutsFit(cuts + [c], |nal| - 1)
    ensures FragmentsAt(nal, cuts + [c]) == FragmentsAt(nal, cuts) + [Fragment(nal, c.0, c.1)]
  {
  }

  /** Whether a NAL unit goes out whole. */
  predicate Whole(nal: seq<Byte>, mtu: nat) { |nal| - 1 < mtu }

  function Payloads(nal: seq<Byte>, mtu: nat): (p: seq<seq<Byte>>)
  {
    if nal == [] then []
    else if Whole(nal, mtu) then [nal]
    else
      CutsInside(|nal| - 1, 0, MaxFragment(mtu));
      FragmentsAt(nal, Cuts(|nal| - 1, 0, MaxFragment(mtu)))
  }

  method BuildFragment(data: seq<Byte>, nri: nat, nalType: nat, offset: nat, size: nat) returns (fragment: seq<Byte>)
    requires data != [] && nri == Nri(data[0]) && nalType == NalType(data[0]) && offset + size < |data|
    ensures fragment == Fragment(data, offset, offset + size)
  {
    var isStart := offset == 0;
    var isEnd := offset + size >= |data| - 1;
    var header := nalType;
    if isStart { header := header + 128; }
    if isEnd { header := header + 64; }
    fragment := [nri + FU_A, header] + data[1 + offset..1 + offset + size];
  }

  /** The payloader's loop. `mtu.saturating_sub(2).max(1)` bytes at most go into a fragment. */
  method Payload(mtu: nat, data: seq<Byte>) returns (fragments: seq<seq<Byte>>)
    ensures fragments == Payloads(data, mtu)
  {
    if data == [] {
      return [];
    }
    var nalType := NalType(data[0]);
    var nri := Nri(data[0]);
    var maxFrag := if mtu <= 2 then 1 else mtu - 2;
    if |data| - 1 < mtu {
      return [data];
    }
    fragments := CutUp(data, nri, nalType, maxFrag);
  }

  /** The fragment loop. */
  method CutUp(data: seq<Byte>, nri: nat, nalType: nat, maxFrag: nat) returns (fragments: seq<seq<Byte>>)
    requires data != [] && nri == Nri(data[0]) && nalType == NalType(data[0]) && maxFrag > 0
    ensures var cuts := Cuts(|data| - 1, 0, maxFrag); CutsFit(cuts, |data| - 1) && fragments == FragmentsAt(data, cuts)
  {
    fragments := [];
    var total := |data| - 1;
    var offset: nat := 0;
    ghost var cuts: seq<(nat, nat)> := [];
    ghost var all := Cuts(total, 0, maxFrag);
    assert [] + all == all;
    while offset < total
      invariant offset <= total && CutsFit(cuts, total) && StillToCut(all, cuts, total, offset, maxFrag)
      invariant fragments == FragmentsAt(data, cuts)
    {
      var remaining := total - offset;
      var size := Least(remaining, maxFrag);
      var fragment := BuildFragment(data, nri, nalType, offset, size);
      CutStep(all, cuts, total, offset, maxFrag, offset + size);
      FragmentsSnoc(data, cuts, (offset, offset + size));
      fragments := fragments + [fragment];
      cuts := cuts + [(offset, offset + size)];
      offset := offset + size;
    }
    assert cuts + [] == cuts;
  }

  /** The cuts made, with those of the rest, are all of them. */
  ghost predicate StillToCut(all: seq<(nat, nat)>, cuts: seq<(nat, nat)>, total: nat, offset: nat, size: nat)
    requires size > 0
  {
    cuts + Cuts(total, offset, size) == all
  }

  lemma CutStep(all: seq<(nat, nat)>, cuts: seq<(nat, nat)>, total: nat, offset: nat, size: nat, to: nat)
    requires size > 0 && offset < total && to == offset + Least(total - offset, size)
    requires StillToCut(all, cuts, total, offset, size)
    ensures StillToCut(all, cuts + [(offset, to)], total, to, size)
  {
    Assoc3(cuts, [(offset, to)], Cuts(total, to, size));
  }

  // ----- the depacketizer

  /** The reassembly state: `last` is the sequence number of the last fragment taken. */
  datatype State = State(buffer: seq<Byte>, last: Option<U16>, timestamp: U32, drops: nat)

  const FRESH := State([], None, 0, 0)

  /** The NAL units of an aggregation packet from `offset` on, and whether it broke off. */
  function Aggregated(data: seq<Byte>, offset: nat, timestamp: U32, marker: bool): (r: (seq<Sample>, bool))
    decreases |data| - offset
  {
    if offset + 2 >= |data| then ([], false)
    else
      var start := offset + 2;
      var end := start + Get16(data, offset);
      if end > |data| then ([], true)
      else
        var more := Aggregated(data, end, timestamp, marker);
        ([Sample(data[start..end], timestamp, end == |data| && marker)] + more.0, more.1)
  }

  function Dropped(s: State): (s': State) { s.(buffer := [], last := None, drops := s.drops + 1) }

  function PushFragment(s: State, p: Packet): (r: (State, seq<Sample>))
    requires p.payload != []
  {
    if |p.payload| < 2 then (s, [])
    else
      var (indicator, fu) := (p.payload[0], p.payload[1]);
      if fu >= 128 then
        (s.(buffer := [Nri(indicator) + fu % 32] + p.payload[2..], timestamp := p.timestamp, last := Some(p.seqno)), [])
      else if s.last.None? then (s, [])
      else if p.seqno != Add16(s.last.value, 1) then (Dropped(s), [])
      else if p.timestamp != s.timestamp then (Dropped(s), [])
      else
        var buffer := s.buffer + p.payload[2..];
        if fu / 64 % 2 == 1 then (s.(buffer := [], last := None), [Sample(buffer, s.timestamp, p.marker)])
        else (s.(buffer := buffer, last := Some(p.seqno)), [])
  }

  function Step(s: State, p: Packet): (r: (State, seq<Sample>))
  {
    if p.payload == [] then (s, [Sample([], p.timestamp, p.marker)])
    else if NalType(p.payload[0]) == STAP_A then
      var (samples, broken) := Aggregated(p.payload, 1, p.timestamp, p.marker);
      (if broken then s.(drops := s.drops + 1) else s, samples)
    else if NalType(p.payload[0]) == FU_A then PushFragment(s, p)
    else (s, [Sample(p.payload, p.timestamp, p.marker)])
  }

  class Depacketizer {
    var fuaBuffer: seq<Byte>
    var lastSeq: Option<U16>
    var currentTimestamp: U32
    var dropCount: nat

    function Abstract(): (s: State)
      reads this
    {
      State(fuaBuffer, lastSeq, currentTimestamp, dropCount)
    }

    constructor ()
      ensures Abstract() == FRESH
    {
      fuaBuffer, lastSeq, currentTimestamp, dropCount := [], None, 0, 0;
    }

    method Push(p: Packet) returns (samples: seq<Sample>)
      modifies this
      ensures Abstract() == Step(old(Abstract()), p).0 && samples == Step(old(Abstract()), p).1
    {
      samples := [];
      if p.payload == [] {
        samples := [Sample([], p.timestamp, p.marker)];
        return;
      }
      var header := p.payload[0];
      if NalType(header) == STAP_A {
        var broken;
        samples, broken := SplitAggregate(p);
        if broken {
          dropCount := dropCount + 1;
        }
      } else if NalType(header) == FU_A {
        samples := PushFua(p);
      } else {
        samples := [Sample(p.payload, p.timestamp, p.marker)];
      }
    }

    method PushFua(p: Packet) returns (samples: seq<Sample>)
      requires p.payload != []
      modifies this
      ensures Abstract() == PushFragment(old(Abstract()), p).0 && samples == PushFragment(old(Abstract()), p).1
    {
      samples := [];
      if |p.payload| < 2 {
        return;
      }
      var fuHeader := p.payload[1];
      if fuHeader >= 128 {
        fuaBuffer := [];
        fuaBuffer := fuaBuffer + [Nri(p.payload[0]) + fuHeader % 32];
        fuaBuffer := fuaBuffer + p.payload[2..];
        currentTimestamp := p.timestamp;
        lastSeq := Some(p.seqno);
        return;
      }
      if lastSeq.None? {
        return;
      }
      var expected := Add16(lastSeq.value, 1);
      if p.seqno != expected || p.timestamp != currentTimestamp {
        dropCount := dropCount + 1;
        fuaBuffer := [];
        lastSeq := None;
        return;
      }
      fuaBuffer := fuaBuffer + p.payload[2..];
      lastSeq := Some(p.seqno);
      if fuHeader / 64 % 2 == 1 {
        samples := [Sample(fuaBuffer, currentTimestamp, p.marker)];
        fuaBuffer := [];
        lastSeq := None;
      }
    }
  }

  method SplitAggregate(p: Packet) returns (samples: seq<Sample>, broken: bool)
    ensures samples == Aggregated(p.payload, 1, p.timestamp, p.marker).0
    ensures broken == Aggregated(p.payload, 1, p.timestamp, p.marker).1
  {
    samples, broken := [], false;
    var data := p.payload;
    var offset: nat := 1;
    ghost var all := Aggregated(data, 1, p.timestamp, p.marker);
    ghost var rest := all;
    while offset + 2 < |data|
      invariant rest == Aggregated(data, offset, p.timestamp, p.marker)
      invariant samples + rest.0 == all.0 && rest.1 == all.1
      decreases |data| - offset
    {
      var start := offset + 2;
      var end: nat := start + Get16(data, offset);
      AggregateStep(samples, data, offset, end, p.timestamp, p.marker);
      if end > |data| {
        broken := true;
        return;
      }
      samples := samples + [Sample(data[start..end], p.timestamp, end == |data| && p.marker)];
      offset := end;
      rest := Aggregated(data, end, p.timestamp, p.marker);
    }
  }

  lemma AggregateStep(samples: seq<Sample>, data: seq<Byte>, offset: nat, end: nat, timestamp: U32, marker: bool)
    requires offset + 2 < |data| && end == offset + 2 + Get16(data, offset)
    ensures var now := Aggregated(data, offset, timestamp, marker);
            && (end > |data| ==> now == ([], true))
            && (end <= |data| ==>
                  var later := Aggregated(data, end, timestamp, marker);
                  && samples + now.0 == (samples + [Sample(data[offset + 2..end], timestamp, end == |data| && marker)])
                    + later.0
                  && now.1 == later.1)
  {
    if end <= |data| {
      Assoc3(samples, [Sample(data[offset + 2..end], timestamp, end == |data| && marker)],
        Aggregated(data, end, timestamp, marker).0);
    }
  }

  // ----- what a sender puts on the network

  datatype Unit = Unit(nal: seq<Byte>, timestamp: U32, last: bool)

  /** One packet's share of a NAL unit: all of it, or body bytes `from` to `to`. */
  datatype Piece = Piece(unit: Unit, whole: bool, from: nat, to: nat)

  predicate PieceOk(p: Piece) { p.unit.nal != [] && (!p.whole ==> p.from < p.to < |p.unit.nal|) }

  function PiecesAt(u: Unit, cuts: seq<(nat, nat)>): (ps: seq<Piece>)
    ensures |ps| == |cuts|
  {
    seq(|cuts|, i requires 0 <= i < |cuts| => Piece(u, false, cuts[i].0, cuts[i].1))
  }

  function PiecesOf(u: Unit, mtu: nat): (ps: seq<Piece>)
  {
    if u.nal == [] then []
    else if Whole(u.nal, mtu) then [Piece(u, true, 0, 0)]
    else PiecesAt(u, Cuts(|u.nal| - 1, 0, MaxFragment(mtu)))
  }

  function Pieces(units: seq<Unit>, mtu: nat): (ps: seq<Piece>)
  {
    if units == [] then [] else Pieces(units[..|units| - 1], mtu) + PiecesOf(units[|units| - 1], mtu)
  }

  function PayloadOf(p: Piece): (b: seq<Byte>)
    requires PieceOk(p)
    ensures b != []
  {
    if p.whole then p.unit.nal else Fragment(p.unit.nal, p.from, p.to)
  }

  /** Packet number `j` of the stream; the marker is on the last packet of a unit that asks for it. */
  function PacketOf(p: Piece, j: nat, first: U16): (r: Packet)
    requires PieceOk(p)
  {
    Packet(Add16(first, j), p.unit.timestamp, p.unit.last && (p.whole || p.to == |p.unit.nal| - 1), PayloadOf(p))
  }

  /** The packets of a unit are what the payloader makes of it. */
  lemma PiecesArePayloads(u: Unit, mtu: nat)
    ensures |PiecesOf(u, mtu)| == |Payloads(u.nal, mtu)|
    ensures forall i | 0 <= i < |PiecesOf(u, mtu)| ::
              PieceOk(PiecesOf(u, mtu)[i]) && PayloadOf(PiecesOf(u, mtu)[i]) == Payloads(u.nal, mtu)[i]
  {
    if u.nal != [] { CutsInside(|u.nal| - 1, 0, MaxFragment(mtu)); }
  }

  /** A fragment that does not start its unit directly follows the fragment before it. */
  predicate Follows(ps: seq<Piece>, j: nat)
    requires j < |ps|
  {
    !ps[j].whole && ps[j].from > 0 ==>
      j > 0 && !ps[j - 1].whole && ps[j - 1].unit == ps[j].unit && ps[j - 1].to == ps[j].from
  }

  /** A packet sent whole does not look like a fragment. */
  predicate Clear(p: Piece) { p.whole && p.unit.nal != [] ==> NalType(p.unit.nal[0]) != FU_A }

  ghost predicate Stream(ps: seq<Piece>)
  {
    && |ps| <= 0x1_0000
    && (forall j {:trigger PieceOk(ps[j])} | 0 <= j < |ps| :: PieceOk(ps[j]) && Clear(ps[j]))
    && (forall j {:trigger Follows(ps, j)} | 0 <= j < |ps| :: Follows(ps, j))
  }

  lemma {:induction false} CutsFollow(total: nat, offset: nat, size: nat, i: nat)
    requires size > 0 && i < |Cuts(total, offset, size)|
    ensures var c := Cuts(total, offset, size);
            c[i].0 < c[i].1 <= total && if i == 0 then c[i].0 == offset else c[i].0 == c[i - 1].1 > offset
    decreases if offset < total then total - offset else 0
  {
    var to := offset + Least(total - offset, size);
    if i > 0 { CutsFollow(total, to, size, i - 1); }
  }

  lemma UnitFollows(u: Unit, mtu: nat, i: nat)
    requires i < |PiecesOf(u, mtu)|
    ensures PieceOk(PiecesOf(u, mtu)[i]) && Follows(PiecesOf(u, mtu), i) && PiecesOf(u, mtu)[i].unit == u
    ensures PiecesOf(u, mtu)[i].whole == Whole(u.nal, mtu)
  {
    if !Whole(u.nal, mtu) {
      CutsFollow(|u.nal| - 1, 0, MaxFragment(mtu), i);
      if i > 0 { CutsFollow(|u.nal| - 1, 0, MaxFragment(mtu), i - 1); }
    }
  }

  lemma {:induction false} PiecesFollow(units: seq<Unit>, mtu: nat, j: nat)
    requires j < |Pieces(units, mtu)|
    ensures PieceOk(Pieces(units, mtu)[j]) && Follows(Pieces(units, mtu), j)
    ensures Pieces(units, mtu)[j].unit in units
            && Pieces(units, mtu)[j].whole == Whole(Pieces(units, mtu)[j].unit.nal, mtu)
  {
    var m := |units| - 1;
    var before := Pieces(units[..m], mtu);
    if j < |before| {
      PiecesFollow(units[..m], mtu, j);
    } else {
      UnitFollows(units[m], mtu, j - |before|);
    }
  }

  /** Whatever is sent, fewer than 2^16 packets of it form a stream, as long as nothing sent whole has type 28. */
  lemma SentIsStream(units: seq<Unit>, mtu: nat)
    requires |Pieces(units, mtu)| <= 0x1_0000
    requires forall u | u in units && u.nal != [] && Whole(u.nal, mtu) :: NalType(u.nal[0]) != FU_A
    ensures Stream(Pieces(units, mtu))
  {
    var ps := Pieces(units, mtu);
    forall j {:trigger PieceOk(ps[j])} | 0 <= j < |ps| ensures PieceOk(ps[j]) && Clear(ps[j]) {
      PiecesFollow(units, mtu, j);
    }
    forall j {:trigger Follows(ps, j)} | 0 <= j < |ps| ensures Follows(ps, j) { PiecesFollow(units, mtu, j); }
  }

  // ----- safety under any delivery

  /** The NAL unit with its forbidden bit cleared, which is the unit itself when that bit was zero. */
  function Intact(nal: seq<Byte>): (r: seq<Byte>)
    requires nal != []
    ensures nal[0] < 128 <==> r == nal
  {
    [nal[0] % 128] + nal[1..]
  }

  /** The state holds the unit's bytes up to the end of fragment `j`, and waits for the packet after it. */
  predicate HeldAt(s: State, ps: seq<Piece>, first: U16, j: nat)
  {
    && j < |ps| && PieceOk(ps[j]) && !ps[j].whole
    && s.last == Some(Add16(first, j))
    && s.timestamp == ps[j].unit.timestamp
    && s.buffer == Intact(ps[j].unit.nal)[..1 + ps[j].to]
  }

  ghost predicate Held(s: State, ps: seq<Piece>, first: U16)
  {
    s.last.Some? ==> exists j :: HeldAt(s, ps, first, j)
  }

  /** What the two header bytes of a fragment say. */
  lemma FragmentHeader(nal: seq<Byte>, from: nat, to: nat)
    requires nal != [] && from < to < |nal|
    ensures var f := Fragment(nal, from, to);
            && NalType(f[0]) == FU_A && Nri(f[0]) + f[1] % 32 == nal[0] % 128
            && (f[1] >= 128 <==> from == 0) && (f[1] / 64 % 2 == 1 <==> to == |nal| - 1)
            && f[2..] == nal[1 + from..1 + to]
  {
    HeaderBits(nal[0]);
    var t := NalType(nal[0]);
    assert Fragment(nal, from, to)[2..] == nal[1 + from..1 + to];
  }

  lemma HeaderBits(h: Byte)
    ensures Nri(Nri(h) + FU_A) == Nri(h) && (Nri(h) + FU_A) % 32 == FU_A && Nri(h) + h % 32 == h % 128
  {
    var n := h / 32 % 4;
    assert h == 128 * (h / 128) + 32 * n + h % 32;
    assert (32 * n + 28) / 32 == n;
  }

  /** Two packets of one stream with consecutive sequence numbers are neighbours, or the last and the first. */
  lemma Neighbours(first: U16, j: nat, d: nat)
    requires j < 0x1_0000 && d < 0x1_0000 && Add16(first, d) == Add16(Add16(first, j), 1)
    ensures d == j + 1 || (d == 0 && j == 0xFFFF)
  {
    var (x, y) := (first + d, first + j + 1);
    Modular.Successor(first + j, 0x1_0000);
    SameCounter(x, y);
  }

  /** Counters less than a turn apart, or just a turn, that wrap to the same number. */
  lemma SameCounter(x: int, y: int)
    requires -0x1_0000 < x - y < 0x1_0000 || y == x + 0x1_0000
    requires x % 0x1_0000 == y % 0x1_0000
    ensures x == y || y == x + 0x1_0000
  {
    if x < y < x + 0x1_0000 { Modular.Distinct(x, y, 0x1_0000); }
    if y < x { Modular.Distinct(y, x, 0x1_0000); }
  }

  lemma StartFragment(s: State, ps: seq<Piece>, first: U16, d: nat)
    requires d < |ps| && PieceOk(ps[d]) && !ps[d].whole && ps[d].from == 0
    ensures var (s', samples) := Step(s, PacketOf(ps[d], d, first));
            samples == [] && HeldAt(s', ps, first, d)
  {
    var p := ps[d];
    FragmentHeader(p.unit.nal, p.from, p.to);
    assert Intact(p.unit.nal)[..1 + p.to] == [p.unit.nal[0] % 128] + p.unit.nal[1..1 + p.to];
  }

  lemma NextFragment(s: State, ps: seq<Piece>, first: U16, d: nat)
    requires d > 0 && HeldAt(s, ps, first, d - 1) && d < |ps| && PieceOk(ps[d]) && !ps[d].whole
    requires ps[d].unit == ps[d - 1].unit && ps[d - 1].to == ps[d].from
    ensures var (s', samples) := Step(s, PacketOf(ps[d], d, first));
            var u := ps[d].unit;
            if ps[d].to == |u.nal| - 1 then s'.last.None? && samples == [Sample(Intact(u.nal), u.timestamp, u.last)]
            else samples == [] && HeldAt(s', ps, first, d)
  {
    var p := ps[d];
    FragmentHeader(p.unit.nal, p.from, p.to);
    Modular.Successor(first + d - 1, 0x1_0000);
    var whole := Intact(p.unit.nal);
    assert whole[..1 + p.from] + p.unit.nal[1 + p.from..1 + p.to] == whole[..1 + p.to];
    assert whole[..|p.unit.nal|] == whole;
  }

  /** One delivered packet, whatever came before: a fragment completes nothing but the unit it belongs to. */
  lemma DeliverOne(s: State, ps: seq<Piece>, first: U16, d: nat)
    requires Stream(ps) && Held(s, ps, first) && d < |ps|
    ensures PieceOk(ps[d])
    ensures var (s', samples) := Step(s, PacketOf(ps[d], d, first));
            var u := ps[d].unit;
            && Held(s', ps, first)
            && (!ps[d].whole ==> samples == [] || samples == [Sample(Intact(u.nal), u.timestamp, u.last)])
  {
    var p := ps[d];
    assert PieceOk(p);
    var (s', samples) := Step(s, PacketOf(p, d, first));
    if p.whole {
      if s.last.Some? {
        var j :| HeldAt(s, ps, first, j);
        assert HeldAt(s', ps, first, j);
      }
    } else if p.from == 0 {
      StartFragment(s, ps, first, d);
    } else {
      assert Follows(ps, d);
      FragmentHeader(p.unit.nal, p.from, p.to);
      if s.last.Some? && Add16(first, d) == Add16(s.last.value, 1) {
        var j :| HeldAt(s, ps, first, j);
        Neighbours(first, j, d);
        NextFragment(s, ps, first, d);
      }
    }
  }

  predicate Deliverable(ps: seq<Piece>, history: seq<nat>)
  {
    forall k | 0 <= k < |history| :: history[k] < |ps| && PieceOk(ps[history[k]])
  }

  lemma DeliverablePrefix(ps: seq<Piece>, history: seq<nat>, d: nat)
    requires Deliverable(ps, history + [d])
    ensures Deliverable(ps, history) && d < |ps| && PieceOk(ps[d])
  {
    forall k | 0 <= k < |history| ensures history[k] < |ps| && PieceOk(ps[history[k]]) {
      assert (history + [d])[k] == history[k];
    }
    assert (history + [d])[|history|] == d;
  }

  /** Any history of deliveries: packets may be lost, repeated and reordered at will. */
  function Deliver(s: State, ps: seq<Piece>, first: U16, history: seq<nat>): (r: State)
    requires Deliverable(ps, history)
  {
    if history == [] then s
    else
      var m := |history| - 1;
      Step(Deliver(s, ps, first, history[..m]), PacketOf(ps[history[m]], history[m], first)).0
  }

  lemma {:induction false} HistoryKeepsHeld(ps: seq<Piece>, first: U16, history: seq<nat>)
    requires Stream(ps) && Deliverable(ps, history)
    ensures Held(Deliver(FRESH, ps, first, history), ps, first)
  {
    if history != [] {
      var m := |history| - 1;
      HistoryKeepsHeld(ps, first, history[..m]);
      DeliverOne(Deliver(FRESH, ps, first, history[..m]), ps, first, history[m]);
    }
  }

  /**
   Safety: after any history of losses, repetitions and reorderings, a delivered fragment makes the depacketizer emit
   nothing or exactly the NAL unit the fragment belongs to, byte for byte when its forbidden bit is zero.
   */
  lemma FragmentsAreSafe(units: seq<Unit>, mtu: nat, first: U16, history: seq<nat>, d: nat)
    requires var ps := Pieces(units, mtu);
             |ps| <= 0x1_0000 && d < |ps| && forall k | 0 <= k < |history| :: history[k] < |ps|
    requires forall u | u in units && u.nal != [] && Whole(u.nal, mtu) :: NalType(u.nal[0]) != FU_A
    ensures var ps := Pieces(units, mtu);
            var u := ps[d].unit;
            && Deliverable(ps, history) && PieceOk(ps[d]) && u in units && ps[d].whole == Whole(u.nal, mtu)
            && (!Whole(u.nal, mtu) ==>
                  var samples := Step(Deliver(FRESH, ps, first, history), PacketOf(ps[d], d, first)).1;
                  && (samples == [] || samples == [Sample(Intact(u.nal), u.timestamp, u.last)])
                  && (u.nal[0] < 128 && samples != [] ==> samples[0].data == u.nal))
  {
    var ps := Pieces(units, mtu);
    SentIsStream(units, mtu);
    PiecesFollow(units, mtu, d);
    forall k | 0 <= k < |history + [d]| ensures PieceOk(ps[(history + [d])[k]]) {
      PiecesFollow(units, mtu, (history + [d])[k]);
    }
    DeliverablePrefix(ps, history, d);
    HistoryKeepsHeld(ps, first, history);
    DeliverOne(Deliver(FRESH, ps, first, history), ps, first, d);
  }

  // ----- lossless delivery

  ghost predicate AllOk(ps: seq<Piece>) { forall j | 0 <= j < |ps| :: PieceOk(ps[j]) }

  /** The first `n` packets of a stream, in order: the state and everything emitted. */
  function InOrder(s: State, ps: seq<Piece>, first: U16, n: nat): (r: (State, seq<Sample>))
    requires n <= |ps| && AllOk(ps)
  {
    if n == 0 then (s, []) else Advance(InOrder(s, ps, first, n - 1), PacketOf(ps[n - 1], n - 1, first))
  }

  /** One more packet: the state after it, and what it emits after everything emitted before. */
  function Advance(r: (State, seq<Sample>), p: Packet): (r': (State, seq<Sample>))
  {
    var (after, now) := Step(r.0, p);
    (after, r.1 + now)
  }

  /** The units that survive: sent whole as no other packet type, or in two or more fragments with F = 0. */
  predicate Fits(nal: seq<Byte>, mtu: nat)
  {
    && nal != []
    && if Whole(nal, mtu) then NalType(nal[0]) != STAP_A && NalType(nal[0]) != FU_A
       else nal[0] < 128 && |nal| > 2
  }

  lemma {:induction false} CutsEnd(total: nat, offset: nat, size: nat, i: nat)
    requires size > 0 && i < |Cuts(total, offset, size)|
    ensures Cuts(total, offset, size)[i].1 == total <==> i == |Cuts(total, offset, size)| - 1
    decreases if offset < total then total - offset else 0
  {
    var to := offset + Least(total - offset, size);
    if i > 0 { CutsEnd(total, to, size, i - 1); }
  }

  /** A body of one byte makes one fragment, a longer one several. */
  lemma SeveralCuts(total: nat, size: nat)
    requires size > 0 && total > 0 && (total > size || total == 1)
    ensures |Cuts(total, 0, size)| >= 1 && (|Cuts(total, 0, size)| >= 2 <==> total > 1)
  {
    var rest := Cuts(total, Least(total, size), size);
    assert Cuts(total, 0, size) == [(0, Least(total, size))] + rest;
  }

  /** Piece `i` is fragment `i - b` of the `n` fragments of `u`. */
  predicate Link(ps: seq<Piece>, b: nat, n: nat, u: Unit, i: nat)
    requires i < |ps|
  {
    && PieceOk(ps[i]) && !ps[i].whole && ps[i].unit == u
    && (ps[i].to == |u.nal| - 1 <==> i == b + n - 1)
    && if i == b then ps[i].from == 0 else i > 0 && ps[i].from == ps[i - 1].to
  }

  ghost predicate Chain(ps: seq<Piece>, b: nat, n: nat, u: Unit)
  {
    b + n <= |ps| && forall i {:trigger Link(ps, b, n, u, i)} | b <= i < b + n :: Link(ps, b, n, u, i)
  }

  lemma UnitIsChain(before: seq<Piece>, u: Unit, mtu: nat)
    requires u.nal != [] && !Whole(u.nal, mtu)
    ensures Chain(before + PiecesOf(u, mtu), |before|, |PiecesOf(u, mtu)|, u)
  {
    var pieces := PiecesOf(u, mtu);
    var ps, b, n := before + pieces, |before|, |pieces|;
    forall i {:trigger Link(ps, b, n, u, i)} | b <= i < b + n ensures Link(ps, b, n, u, i) {
      var k := i - b;
      assert ps[i] == pieces[k];
      UnitFollows(u, mtu, k);
      CutsFollow(|u.nal| - 1, 0, MaxFragment(mtu), k);
      CutsEnd(|u.nal| - 1, 0, MaxFragment(mtu), k);
      if k > 0 { assert ps[i - 1] == pieces[k - 1]; }
    }
  }

  /** After `k` of the `n` fragments: the unit's bytes so far, or the finished unit. */
  ghost predicate ChainState(r: (State, seq<Sample>), before: seq<Sample>, ps: seq<Piece>, first: U16, b: nat, n: nat,
                             u: Unit, k: nat)
    requires b + k > 0 && u.nal != []
  {
    if k < n then r.1 == before && HeldAt(r.0, ps, first, b + k - 1)
    else r.0.last.None? && r.1 == before + [Sample(Intact(u.nal), u.timestamp, u.last)]
  }

  lemma ChainStart(r: (State, seq<Sample>), ps: seq<Piece>, first: U16, b: nat, n: nat, u: Unit)
    requires Chain(ps, b, n, u) && n >= 2
    ensures PieceOk(ps[b]) && u.nal != []
    ensures ChainState(Advance(r, PacketOf(ps[b], b, first)), r.1, ps, first, b, n, u, 1)
  {
    assert Link(ps, b, n, u, b);
    StartFragment(r.0, ps, first, b);
    assert r.1 + [] == r.1;
  }

  lemma ChainStep(r: (State, seq<Sample>), before: seq<Sample>, ps: seq<Piece>, first: U16, b: nat, n: nat, u: Unit,
                  k: nat, d: nat)
    requires Chain(ps, b, n, u) && 1 <= k < n && d == b + k && u.nal != []
    requires ChainState(r, before, ps, first, b, n, u, k)
    ensures PieceOk(ps[d]) && ChainState(Advance(r, PacketOf(ps[d], d, first)), before, ps, first, b, n, u, k + 1)
  {
    assert Link(ps, b, n, u, d) && Link(ps, b, n, u, d - 1);
    NextFragment(r.0, ps, first, d);
    assert before + [] == before;
  }

  lemma {:induction false} ChainInOrder(s: State, ps: seq<Piece>, first: U16, b: nat, n: nat, u: Unit, k: nat)
    requires AllOk(ps) && Chain(ps, b, n, u) && 1 <= k <= n && n >= 2
    ensures u.nal != []
    ensures ChainState(InOrder(s, ps, first, b + k), InOrder(s, ps, first, b).1, ps, first, b, n, u, k)
  {
    var start := InOrder(s, ps, first, b);
    if k == 1 {
      ChainStart(start, ps, first, b, n, u);
    } else {
      ChainInOrder(s, ps, first, b, n, u, k - 1);
      ChainStep(InOrder(s, ps, first, b + k - 1), start.1, ps, first, b, n, u, k - 1, b + k - 1);
    }
  }

  /** The first unit an aggregation packet holds is shorter than the packet. */
  lemma PartIsShorter(data: seq<Byte>, timestamp: U32, marker: bool)
    requires data != []
    ensures var samples := Aggregated(data, 1, timestamp, marker).0; samples != [] ==> |samples[0].data| < |data|
  {
  }

  /** A unit sent as one packet to an idle depacketizer. */
  lemma WholeInOrder(s: State, p: Piece, j: nat, first: U16)
    requires PieceOk(p) && p.whole
    ensures var samples := Step(s, PacketOf(p, j, first)).1;
            var sent := [Sample(p.unit.nal, p.unit.timestamp, p.unit.last)];
            && (NalType(p.unit.nal[0]) != STAP_A && NalType(p.unit.nal[0]) != FU_A ==> samples == sent)
            && (s.last.None? && samples == sent ==> NalType(p.unit.nal[0]) != STAP_A && NalType(p.unit.nal[0]) != FU_A)
  {
    var nal := p.unit.nal;
    if NalType(nal[0]) == STAP_A {
      PartIsShorter(nal, p.unit.timestamp, PacketOf(p, j, first).marker);
    }
  }

  lemma PiecesOk(units: seq<Unit>, mtu: nat)
    ensures AllOk(Pieces(units, mtu))
  {
    forall j | 0 <= j < |Pieces(units, mtu)| ensures PieceOk(Pieces(units, mtu)[j]) { PiecesFollow(units, mtu, j); }
  }

  /** What came before a unit does not depend on what comes after. */
  lemma {:induction false} InOrderPrefix(s: State, a: seq<Piece>, b: seq<Piece>, first: U16, n: nat)
    requires AllOk(a + b) && AllOk(a) && n <= |a|
    ensures InOrder(s, a + b, first, n) == InOrder(s, a, first, n)
  {
    if n > 0 {
      InOrderPrefix(s, a, b, first, n - 1);
      assert (a + b)[n - 1] == a[n - 1];
    }
  }

  function Delivered(units: seq<Unit>): (samples: seq<Sample>)
    ensures |samples| == |units|
  {
    if units == [] then []
    else var m := |units| - 1; Delivered(units[..m]) + [Sample(units[m].nal, units[m].timestamp, units[m].last)]
  }

  /** One more unit, after anything. */
  lemma UnitInOrder(s: State, before: seq<Piece>, u: Unit, mtu: nat, first: U16)
    requires Fits(u.nal, mtu) && AllOk(before) && AllOk(before + PiecesOf(u, mtu))
    ensures var ps := before + PiecesOf(u, mtu);
            InOrder(s, ps, first, |ps|).1 == InOrder(s, before, first, |before|).1
              + [Sample(u.nal, u.timestamp, u.last)]
  {
    var pieces := PiecesOf(u, mtu);
    if Whole(u.nal, mtu) {
      OneMore(s, before, pieces[0], first);
    } else {
      SeveralCuts(|u.nal| - 1, MaxFragment(mtu));
      UnitIsChain(before, u, mtu);
      FragmentsInOrder(s, before, pieces, u, first);
    }
  }

  /** A unit sent in fragments, after anything. */
  lemma FragmentsInOrder(s: State, before: seq<Piece>, pieces: seq<Piece>, u: Unit, first: U16)
    requires AllOk(before) && AllOk(before + pieces) && Chain(before + pieces, |before|, |pieces|, u) && |pieces| >= 2
    requires u.nal != [] && u.nal[0] < 128
    ensures InOrder(s, before + pieces, first, |before + pieces|).1
            == InOrder(s, before, first, |before|).1 + [Sample(u.nal, u.timestamp, u.last)]
  {
    InOrderPrefix(s, before, pieces, first, |before|);
    ChainInOrder(s, before + pieces, first, |before|, |pieces|, u, |pieces|);
  }

  /** A unit sent whole, after anything. */
  lemma OneMore(s: State, before: seq<Piece>, p: Piece, first: U16)
    requires AllOk(before) && AllOk(before + [p]) && PieceOk(p) && p.whole
    requires NalType(p.unit.nal[0]) != STAP_A && NalType(p.unit.nal[0]) != FU_A
    ensures InOrder(s, before + [p], first, |before| + 1).1
            == InOrder(s, before, first, |before|).1 + [Sample(p.unit.nal, p.unit.timestamp, p.unit.last)]
  {
    InOrderPrefix(s, before, [p], first, |before|);
    assert (before + [p])[|before|] == p;
    WholeInOrder(InOrder(s, before + [p], first, |before|).0, p, |before|, first);
  }

  /** Lossless delivery: every unit that fits comes out exactly once, in order, whatever state the receiver was in. */
  lemma {:induction false} LosslessDelivery(s: State, units: seq<Unit>, mtu: nat, first: U16)
    requires forall u | u in units :: Fits(u.nal, mtu)
    ensures AllOk(Pieces(units, mtu))
    ensures var ps := Pieces(units, mtu); InOrder(s, ps, first, |ps|).1 == Delivered(units)
  {
    PiecesOk(units, mtu);
    if units != [] {
      var m := |units| - 1;
      LosslessDelivery(s, units[..m], mtu, first);
      UnitInOrder(s, Pieces(units[..m], mtu), units[m], mtu, first);
    }
  }

  /** The condition is exact: a unit that does not fit does not come back as itself, from any idle receiver. */
  lemma DeliveredIffFits(s: State, u: Unit, mtu: nat, first: U16)
    requires s.last.None?
    ensures AllOk(PiecesOf(u, mtu))
    ensures var ps := PiecesOf(u, mtu);
            InOrder(s, ps, first, |ps|).1 == [Sample(u.nal, u.timestamp, u.last)] <==> Fits(u.nal, mtu)
  {
    var ps := PiecesOf(u, mtu);
    assert [] + ps == ps;
    forall j | 0 <= j < |ps| ensures PieceOk(ps[j]) { UnitFollows(u, mtu, j); }
    if Fits(u.nal, mtu) {
      UnitInOrder(s, [], u, mtu, first);
      assert InOrder(s, [], first, 0).1 == [];
    } else if u.nal == [] {
      assert InOrder(s, ps, first, 0).1 == [];
    } else if Whole(u.nal, mtu) {
      assert InOrder(s, ps, first, 1).1 == [] + Step(s, PacketOf(ps[0], 0, first)).1;
      WholeInOrder(s, ps[0], 0, first);
    } else {
      Misfit(s, u, mtu, first);
    }
  }

  /**
   A unit cut into `n` fragments yields nothing when `n` is below two, and else the unit with its forbidden bit cleared.
   */
  lemma ChainYields(s: State, ps: seq<Piece>, u: Unit, first: U16)
    requires AllOk(ps) && Chain(ps, 0, |ps|, u) && u.nal != []
    ensures InOrder(s, ps, first, |ps|).1 == if |ps| < 2 then [] else [Sample(Intact(u.nal), u.timestamp, u.last)]
  {
    assert InOrder(s, ps, first, 0).1 == [];
    if |ps| == 1 {
      assert Link(ps, 0, 1, u, 0);
      StartFragment(s, ps, first, 0);
      assert InOrder(s, ps, first, 1) == Advance(InOrder(s, ps, first, 0), PacketOf(ps[0], 0, first));
    } else if |ps| > 1 {
      ChainInOrder(s, ps, first, 0, |ps|, u, |ps|);
    }
  }

  /** A fragmented unit that does not fit: nothing comes out, or something else than the unit. */
  lemma Misfit(s: State, u: Unit, mtu: nat, first: U16)
    requires u.nal != [] && !Whole(u.nal, mtu) && !Fits(u.nal, mtu) && AllOk(PiecesOf(u, mtu))
    ensures var ps := PiecesOf(u, mtu);
            var samples := InOrder(s, ps, first, |ps|).1;
            samples == [] || (Intact(u.nal) != u.nal && samples == [Sample(Intact(u.nal), u.timestamp, u.last)])
  {
    var ps := PiecesOf(u, mtu);
    assert [] + ps == ps;
    UnitIsChain([], u, mtu);
    ChainYields(s, ps, u, first);
    if |u.nal| == 2 { SeveralCuts(1, MaxFragment(mtu)); }
  }

  /** A unit whose type is that of a fragment, sent whole, is taken for a fragment and does not come back. */
  lemma FragmentTypeIsLost(s: State, timestamp: U32, last: bool, mtu: nat, first: U16)
    requires s.last.None? && mtu > 0
    ensures var ps := PiecesOf(Unit([FU_A], timestamp, last), mtu);
            |ps| == 1 && AllOk(ps) && InOrder(s, ps, first, 1).1 != [Sample([FU_A], timestamp, last)]
  {
    DeliveredIffFits(s, Unit([FU_A], timestamp, last), mtu, first);
  }
}

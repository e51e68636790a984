/**
 VP9 over RTP: the descriptor parser, the payloader and the depacketizer (src/media/packetizer.rs,
 src/media/depacketizer.rs, section 4.2 of RFC 9628).
 */
module Vp9 {
  import opened Wrappers
  import opened Bytes

  // ----- the payload descriptor

  datatype Descriptor = Descriptor(pictureId: Option<U16>, interPredicted: bool, flexible: bool, start: bool,
                                   end: bool, headerLen: nat)

  /** A picture id and the index after it. */
  datatype Picture = Picture(id: Option<U16>, next: nat)

  predicate Bit(b: Byte, weight: nat)
    requires weight > 0
  {
    b / weight % 2 == 1
  }

  function PictureAt(p: seq<Byte>, at: nat, present: bool): (r: Option<Picture>)
  {
    if !present then Some(Picture(None, at))
    else if at >= |p| then None
    else if p[at] < 128 then Some(Picture(Some(p[at]), at + 1))
    else if at + 1 >= |p| then None
    else Some(Picture(Some(0x100 * (p[at] as int % 128) + p[at + 1]), at + 2))
  }

  /** One byte of layer indices, and a second one in non-flexible mode. */
  function LayersAt(p: seq<Byte>, at: nat, present: bool, flexible: bool): (next: Option<nat>)
  {
    if !present then Some(at)
    else if at >= |p| then None
    else if flexible then Some(at + 1)
    else if at + 1 >= |p| then None
    else Some(at + 2)
  }

  /** At most `n` reference indices, chained by their low bit. */
  function ReferencesAt(p: seq<Byte>, at: nat, n: nat): (next: Option<nat>)
    decreases n
  {
    if n == 0 then Some(at)
    else if at >= |p| then None
    else if p[at] % 2 == 0 then Some(at + 1)
    else ReferencesAt(p, at + 1, n - 1)
  }

  /** `n` picture group entries, each followed by up to three differences that are skipped unread. */
  function GroupsAt(p: seq<Byte>, at: nat, n: nat): (next: Option<nat>)
    decreases n
  {
    if n == 0 then Some(at)
    else if at >= |p| then None
    else GroupsAt(p, at + 1 + p[at] / 4 % 4, n - 1)
  }

  /** The scalability structure; its end is checked only once. */
  function StructureAt(p: seq<Byte>, at: nat): (next: Option<nat>)
  {
    if at >= |p| then None
    else
      var sizes := if Bit(p[at], 16) then 4 * (p[at] / 32 % 8 + 1) else 0;
      var i: nat := at + 1 + sizes;
      if !Bit(p[at], 8) then (if i - 1 < |p| then Some(i) else None)
      else if i >= |p| then None
      else
        match GroupsAt(p, i + 1, p[i])
        case None => None
        case Some(end) => if end - 1 < |p| then Some(end) else None
  }

  function Parse(p: seq<Byte>): (r: Option<Descriptor>)
  {
    if p == [] then None
    else
      var b := p[0];
      match PictureAt(p, 1, Bit(b, 128))
      case None => None
      case Some(picture) =>
        match LayersAt(p, picture.next, Bit(b, 32), Bit(b, 16))
        case None => None
        case Some(layers) =>
          match ReferencesAt(p, layers, if Bit(b, 64) && Bit(b, 16) then 3 else 0)
          case None => None
          case Some(references) =>
            match (if Bit(b, 2) then StructureAt(p, references) else Some(references))
            case None => None
            case Some(end) => Some(Descriptor(picture.id, Bit(b, 64), Bit(b, 16), Bit(b, 8), Bit(b, 4), end))
  }

  /** The chain of reference indices, as a loop. */
  method SkipReferences(p: seq<Byte>, at: nat) returns (next: Option<nat>)
    ensures next == ReferencesAt(p, at, 3)
  {
    var idx: nat := at;
    var n: nat := 3;
    while n > 0
      invariant ReferencesAt(p, idx, n) == ReferencesAt(p, at, 3)
    {
      if idx >= |p| {
        return None;
      }
      var ri := p[idx];
      idx := idx + 1;
      if ri % 2 == 0 {
        break;
      }
      n := n - 1;
    }
    next := Some(idx);
  }

  method SkipStructure(p: seq<Byte>, at: nat) returns (next: Option<nat>)
    ensures next == StructureAt(p, at)
  {
    if at >= |p| {
      return None;
    }
    var ss := p[at];
    var idx: nat := at + 1;
    if Bit(ss, 16) {
      idx := idx + (ss / 32 % 8 + 1) * 4;
    }
    if Bit(ss, 8) {
      if idx >= |p| {
        return None;
      }
      var groups: nat := p[idx];
      idx := idx + 1;
      ghost var first := idx;
      var n := groups;
      while n > 0
        invariant GroupsAt(p, idx, n) == GroupsAt(p, first, groups) && idx >= first
      {
        if idx >= |p| {
          return None;
        }
        var g := p[idx];
        idx := idx + 1;
        idx := idx + g / 4 % 4;
        n := n - 1;
      }
    }
    if idx - 1 >= |p| {
      return None;
    }
    next := Some(idx);
  }

  /** The parser, field by field. */
  method ParseDescriptor(p: seq<Byte>) returns (r: Option<Descriptor>)
    ensures r == Parse(p)
  {
    if p == [] {
      return None;
    }
    var b := p[0];
    var idx: nat := 1;
    var pictureId: Option<U16> := None;
    if Bit(b, 128) {
      if idx >= |p| {
        return None;
      }
      var first := p[idx];
      if first >= 128 {
        if idx + 1 >= |p| {
          return None;
        }
        pictureId := Some(0x100 * (first as int % 128) + p[idx + 1]);
        idx := idx + 2;
      } else {
        pictureId := Some(first);
        idx := idx + 1;
      }
    }
    if Bit(b, 32) {
      if idx >= |p| {
        return None;
      }
      idx := idx + 1;
      if !Bit(b, 16) {
        if idx >= |p| {
          return None;
        }
        idx := idx + 1;
      }
    }
    if Bit(b, 64) && Bit(b, 16) {
      var next := SkipReferences(p, idx);
      if next.None? {
        return None;
      }
      idx := next.value;
    }
    if Bit(b, 2) {
      var next := SkipStructure(p, idx);
      if next.None? {
        return None;
      }
      idx := next.value;
    }
    r := Some(Descriptor(pictureId, Bit(b, 64), Bit(b, 16), Bit(b, 8), Bit(b, 4), idx));
  }

  // ----- the descriptor is a prefix

  /** The first `n` bytes are the same. */
  ghost predicate Agree(p: seq<Byte>, q: seq<Byte>, n: nat)
  {
    n <= |p| && n <= |q| && forall i {:trigger p[i]} {:trigger q[i]} | 0 <= i < n :: p[i] == q[i]
  }

  lemma {:induction false} ReferencesPrefix(p: seq<Byte>, q: seq<Byte>, at: nat, n: nat)
    requires ReferencesAt(p, at, n).Some? && at <= |p|
    ensures at <= ReferencesAt(p, at, n).value <= |p|
    ensures Agree(p, q, ReferencesAt(p, at, n).value) ==> ReferencesAt(q, at, n) == ReferencesAt(p, at, n)
    decreases n
  {
    if n > 0 && p[at] % 2 == 1 { ReferencesPrefix(p, q, at + 1, n - 1); }
  }

  lemma {:induction false} GroupsPrefix(p: seq<Byte>, q: seq<Byte>, at: nat, n: nat)
    requires GroupsAt(p, at, n).Some?
    ensures at <= GroupsAt(p, at, n).value
    ensures Agree(p, q, GroupsAt(p, at, n).value) ==> GroupsAt(q, at, n) == GroupsAt(p, at, n)
    decreases n
  {
    if n > 0 { GroupsPrefix(p, q, at + 1 + p[at] / 4 % 4, n - 1); }
  }

  lemma StructurePrefix(p: seq<Byte>, q: seq<Byte>, at: nat)
    requires StructureAt(p, at).Some?
    ensures at < StructureAt(p, at).value <= |p|
    ensures Agree(p, q, StructureAt(p, at).value) ==> StructureAt(q, at) == StructureAt(p, at)
  {
    if Bit(p[at], 8) {
      var sizes := if Bit(p[at], 16) then 4 * (p[at] / 32 % 8 + 1) else 0;
      var i := at + 1 + sizes;
      GroupsPrefix(p, q, i + 1, p[i]);
    }
  }

  lemma FrontPrefix(p: seq<Byte>, q: seq<Byte>, at: nat, present: bool, layers: bool, flexible: bool)
    requires at <= |p| && PictureAt(p, at, present).Some?
             && LayersAt(p, PictureAt(p, at, present).value.next, layers, flexible).Some?
    ensures var picture := PictureAt(p, at, present).value;
            var next := LayersAt(p, picture.next, layers, flexible).value;
            && at <= picture.next <= next <= |p|
            && (Agree(p, q, next) ==>
                  && PictureAt(q, at, present) == Some(picture)
                  && LayersAt(q, picture.next, layers, flexible) == Some(next))
  {
  }

  /** For arbitrary bytes: the header length is within the payload, and the result depends on those bytes only. */
  lemma DescriptorIsPrefix(p: seq<Byte>, q: seq<Byte>)
    requires Parse(p).Some?
    ensures 1 <= Parse(p).value.headerLen <= |p|
    ensures Agree(p, q, Parse(p).value.headerLen) ==> Parse(q) == Parse(p)
  {
    var b := p[0];
    FrontPrefix(p, q, 1, Bit(b, 128), Bit(b, 32), Bit(b, 16));
    var picture := PictureAt(p, 1, Bit(b, 128)).value;
    var layers := LayersAt(p, picture.next, Bit(b, 32), Bit(b, 16)).value;
    var n := if Bit(b, 64) && Bit(b, 16) then 3 else 0;
    ReferencesPrefix(p, q, layers, n);
    var references := ReferencesAt(p, layers, n).value;
    if Bit(b, 2) { StructurePrefix(p, q, references); }
  }

  // ----- the payloader

  type PictureId = x: int | 0 <= x < 0x8000

  function MaxChunk(mtu: nat): (n: nat)
    ensures n > 0
  {
    if mtu <= 4 then 1 else mtu - 3
  }

  /** Descriptor: picture id present, flexible mode, and the start and end marks. */
  function Flags(start: bool, end: bool): (b: Byte) { 0x90 + (if start then 8 else 0) + if end then 4 else 0 }

  function Payload(id: PictureId, start: bool, end: bool, chunk: seq<Byte>): (p: seq<Byte>)
  {
    [Flags(start, end), 0x80 + id / 0x100, id % 0x100] + chunk
  }

  function ChunkEnd(total: nat, at: nat, size: nat): (e: nat)
    requires at <= total
    ensures at <= e <= total
  {
    if total - at < size then total else at + size
  }

  /** The packets of a frame from byte `at` on. */
  function Payloads(data: seq<Byte>, at: nat, size: nat, id: PictureId): (ps: seq<seq<Byte>>)
    requires size > 0 && at <= |data|
    decreases |data| - at
  {
    if at == |data| then []
    else
      var end := ChunkEnd(|data|, at, size);
      [Payload(id, at == 0, end == |data|, data[at..end])] + Payloads(data, end, size, id)
  }

  /** The loop of the payloader: a descriptor and at most `max` bytes at a time. */
  method SplitFrom(data: seq<Byte>, max: nat, id: PictureId) returns (payloads: seq<seq<Byte>>)
    requires max > 0
    ensures payloads == Payloads(data, 0, max, id)
  {
    payloads := [];
    var offset: nat := 0;
    ghost var all := Payloads(data, 0, max, id);
    assert [] + all == all;
    while offset < |data|
      invariant offset <= |data| && StillToSplit(all, payloads, data, offset, max, id)
    {
      var size := if |data| - offset < max then |data| - offset else max;
      var b0: Byte := 0x90;
      if offset == 0 {
        b0 := b0 + 8;
      }
      if offset + size >= |data| {
        b0 := b0 + 4;
      }
      var payload := [b0, 0x80 + id / 0x100, id % 0x100] + data[offset..offset + size];
      SplitStep(all, payloads, data, offset, max, id, payload, offset + size);
      payloads := payloads + [payload];
      offset := offset + size;
    }
    assert payloads + [] == payloads;
  }

  /** What has been split off, with the payloads of the rest, is all there is. */
  ghost predicate StillToSplit(all: seq<seq<Byte>>, payloads: seq<seq<Byte>>, data: seq<Byte>, at: nat, max: nat,
                               id: PictureId)
    requires max > 0 && at <= |data|
  {
    payloads + Payloads(data, at, max, id) == all
  }

  lemma SplitStep(all: seq<seq<Byte>>, payloads: seq<seq<Byte>>, data: seq<Byte>, at: nat, max: nat, id: PictureId,
                  payload: seq<Byte>, end: nat)
    requires max > 0 && at < |data| && StillToSplit(all, payloads, data, at, max, id)
    requires end == ChunkEnd(|data|, at, max) && payload == Payload(id, at == 0, end == |data|, data[at..end])
    ensures StillToSplit(all, payloads + [payload], data, end, max, id)
  {
    Assoc3(payloads, [payload], Payloads(data, end, max, id));
  }

  class Payloader {
    var pictureId: PictureId

    constructor (id: PictureId)
      ensures pictureId == id
    {
      pictureId := id;
    }

    /** Splits a frame; the picture id moves on once per non-empty frame and wraps at 15 bits. */
    method Split(mtu: nat, data: seq<Byte>) returns (payloads: seq<seq<Byte>>)
      modifies this
      ensures payloads == Payloads(data, 0, MaxChunk(mtu), old(pictureId))
      ensures pictureId == if data == [] then old(pictureId) else (old(pictureId) + 1) % 0x8000
    {
      payloads := [];
      if data == [] {
        return;
      }
      var max := if mtu < 4 then 1 else mtu - 3;
      var id := pictureId;
      pictureId := (pictureId + 1) % 0x8000;
      payloads := SplitFrom(data, max, id);
    }
  }

  /** What the parser says about the payloader's packets. */
  lemma PayloadParses(id: PictureId, start: bool, end: bool, chunk: seq<Byte>)
    ensures Parse(Payload(id, start, end, chunk)) == Some(Descriptor(Some(id), false, true, start, end, 3))
    ensures Payload(id, start, end, chunk)[3..] == chunk
  {
    var p := Payload(id, start, end, chunk);
    var h: Byte := 0x80 + id / 0x100;
    assert p[0] == Flags(start, end) && p[1] == h && p[2] == id % 0x100;
    assert h % 128 == id / 0x100;
  }

  // ----- the depacketizer

  datatype Packet = Packet(payload: seq<Byte>, timestamp: U32, marker: bool)

  datatype Frame = Frame(data: seq<Byte>, timestamp: U32)

  datatype State = State(buffer: seq<Byte>, timestamp: U32, inProgress: bool, drops: nat)

  function Dropped(s: State): (s': State) { s.(drops := s.drops + 1) }

  /** Adds a packet's bytes, and hands the frame out at its end. */
  function Gathered(s: State, end: bool): (r: (State, seq<Frame>))
  {
    if end then (s.(buffer := [], inProgress := false), [Frame(s.buffer, s.timestamp)]) else (s, [])
  }

  function Step(s: State, p: Packet): (r: (State, seq<Frame>))
  {
    match Parse(p.payload)
    case None => (Dropped(s), [])
    case Some(d) =>
      if d.headerLen > |p.payload| then (Dropped(s), [])
      else
        var body := p.payload[d.headerLen..];
        if d.start then Gathered(State(body, p.timestamp, true, s.drops), d.end || p.marker)
        else if s.inProgress && p.timestamp == s.timestamp then
          Gathered(s.(buffer := s.buffer + body), d.end || p.marker)
        else (Dropped(s), [])
  }

  class Depacketizer {
    var frameBuffer: seq<Byte>
    var currentTimestamp: U32
    var frameInProgress: bool
    var dropCount: nat

    function Abstract(): (s: State)
      reads this
    {
      State(frameBuffer, currentTimestamp, frameInProgress, dropCount)
    }

    constructor ()
      ensures Abstract() == State([], 0, false, 0)
    {
      frameBuffer, currentTimestamp, frameInProgress, dropCount := [], 0, false, 0;
    }

    method Push(p: Packet) returns (frames: seq<Frame>)
      modifies this
      ensures Abstract() == Step(old(Abstract()), p).0 && frames == Step(old(Abstract()), p).1
    {
      frames := [];
      var d := ParseDescriptor(p.payload);
      if d.None? || d.value.headerLen > |p.payload| {
        dropCount := dropCount + 1;
        return;
      }
      var body := p.payload[d.value.headerLen..];
      if d.value.start {
        frameBuffer := body;
        currentTimestamp := p.timestamp;
        frameInProgress := true;
      } else if frameInProgress && p.timestamp == currentTimestamp {
        frameBuffer := frameBuffer + body;
      } else {
        dropCount := dropCount + 1;
        return;
      }
      if d.value.end || p.marker {
        frames := [Frame(frameBuffer, currentTimestamp)];
        frameBuffer := [];
        frameInProgress := false;
      }
    }
  }

  function Run(s: State, ps: seq<Packet>): (r: (State, seq<Frame>))
    decreases |ps|
  {
    if ps == [] then (s, [])
    else
      var (s', frames) := Step(s, ps[0]);
      var (end, more) := Run(s', ps[1..]);
      (end, frames + more)
  }

  /** A frame to send: its bytes, picture id, timestamp, and whether its last packet carries the marker. */
  datatype Source = Source(data: seq<Byte>, id: PictureId, timestamp: U32, marker: bool)

  function PacketAt(f: Source, at: nat, end: nat): (p: Packet)
    requires at <= end <= |f.data|
  {
    Packet(Payload(f.id, at == 0, end == |f.data|, f.data[at..end]), f.timestamp, f.marker && end == |f.data|)
  }

  /** The packets of a frame from byte `at` on, of which only those marked in `keep` arrive. */
  function Arriving(f: Source, at: nat, size: nat, keep: seq<bool>): (ps: seq<Packet>)
    requires size > 0 && at <= |f.data|
    decreases |f.data| - at
  {
    if at == |f.data| || keep == [] then []
    else
      var end := ChunkEnd(|f.data|, at, size);
      (if keep[0] then [PacketAt(f, at, end)] else []) + Arriving(f, end, size, keep[1..])
  }

  /** The bytes in those packets. */
  function ArrivingBytes(data: seq<Byte>, at: nat, size: nat, keep: seq<bool>): (b: seq<Byte>)
    requires size > 0 && at <= |data|
    ensures |b| <= |data| - at
    decreases |data| - at
  {
    if at == |data| || keep == [] then []
    else
      var end := ChunkEnd(|data|, at, size);
      (if keep[0] then data[at..end] else []) + ArrivingBytes(data, end, size, keep[1..])
  }

  /** How many packets a frame makes from byte `at` on. */
  function Count(total: nat, at: nat, size: nat): (n: nat)
    requires size > 0 && at <= total
    decreases total - at
  {
    if at == total then 0 else 1 + Count(total, ChunkEnd(total, at, size), size)
  }

  predicate All(keep: seq<bool>) { forall i | 0 <= i < |keep| :: keep[i] }

  /** One packet of a frame: a start resets, a continuation appends, the end hands out. */
  lemma StepPacket(s: State, f: Source, at: nat, end: nat)
    requires at < end <= |f.data| && (at == 0 || (s.inProgress && s.timestamp == f.timestamp))
    ensures var (s', frames) := Step(s, PacketAt(f, at, end));
            var buffer := (if at == 0 then [] else s.buffer) + f.data[at..end];
            if end == |f.data| then frames == [Frame(buffer, f.timestamp)]
              && s' == State([], f.timestamp, false, s.drops)
            else frames == [] && s' == State(buffer, f.timestamp, true, s.drops)
  {
    PayloadParses(f.id, at == 0, end == |f.data|, f.data[at..end]);
    assert [] + f.data[at..end] == f.data[at..end];
  }

  lemma RunFirst(s: State, p: Packet, rest: seq<Packet>)
    ensures Run(s, [p] + rest).0 == Run(Step(s, p).0, rest).0
    ensures Run(s, [p] + rest).1 == Step(s, p).1 + Run(Step(s, p).0, rest).1
  {
    assert ([p] + rest)[1..] == rest;
  }

  /** Running the packets hands out exactly this frame and leaves the depacketizer idle. */
  predicate HandsOut(s: State, ps: seq<Packet>, data: seq<Byte>, timestamp: U32)
  {
    Run(s, ps).0 == State([], timestamp, false, s.drops) && Run(s, ps).1 == [Frame(data, timestamp)]
  }

  lemma LastPacket(s: State, f: Source, at: nat)
    requires at < |f.data| && (at == 0 || (s.inProgress && s.timestamp == f.timestamp))
    ensures HandsOut(s, [PacketAt(f, at, |f.data|)], (if at == 0 then [] else s.buffer) + f.data[at..], f.timestamp)
  {
    var p := PacketAt(f, at, |f.data|);
    StepPacket(s, f, at, |f.data|);
    RunFirst(s, p, []);
    assert [p] + [] == [p] && f.data[at..|f.data|] == f.data[at..];
  }

  lemma NextPacket(s: State, f: Source, at: nat, end: nat, rest: seq<Packet>, more: seq<Byte>)
    requires at < end < |f.data| && (at == 0 || (s.inProgress && s.timestamp == f.timestamp))
    requires var buffer := (if at == 0 then [] else s.buffer) + f.data[at..end];
             HandsOut(State(buffer, f.timestamp, true, s.drops), rest, buffer + more, f.timestamp)
    ensures HandsOut(s, [PacketAt(f, at, end)] + rest, (if at == 0 then [] else s.buffer) + (f.data[at..end] + more),
            f.timestamp)
  {
    StepPacket(s, f, at, end);
    RunFirst(s, PacketAt(f, at, end), rest);
    Assoc3(if at == 0 then [] else s.buffer, f.data[at..end], more);
  }

  /** The rest of a frame whose last packet arrives: exactly the bytes that arrived. */
  lemma {:induction false} RestArrives(s: State, f: Source, at: nat, size: nat, keep: seq<bool>)
    requires size > 0 && 0 < at < |f.data| && s.inProgress && s.timestamp == f.timestamp
    requires |keep| == Count(|f.data|, at, size) && keep[|keep| - 1]
    ensures HandsOut(s, Arriving(f, at, size, keep), s.buffer + ArrivingBytes(f.data, at, size, keep), f.timestamp)
    decreases |f.data| - at
  {
    var end := ChunkEnd(|f.data|, at, size);
    var (more, rest) := (ArrivingBytes(f.data, end, size, keep[1..]), Arriving(f, end, size, keep[1..]));
    if end == |f.data| {
      LastPacket(s, f, at);
      assert [PacketAt(f, at, end)] + [] == [PacketAt(f, at, end)] && f.data[at..end] + [] == f.data[at..];
    } else if keep[0] {
      RestArrives(State(s.buffer + f.data[at..end], f.timestamp, true, s.drops), f, end, size, keep[1..]);
      NextPacket(s, f, at, end, rest, more);
    } else {
      RestArrives(s, f, end, size, keep[1..]);
      assert [] + rest == rest && [] + more == more;
    }
  }

  /** A frame whose first and last packets arrive comes out as the bytes that arrived, whatever was lost in between. */
  lemma FrameArrives(s: State, f: Source, size: nat, keep: seq<bool>)
    requires size > 0 && f.data != [] && |keep| == Count(|f.data|, 0, size) && keep[0] && keep[|keep| - 1]
    ensures HandsOut(s, Arriving(f, 0, size, keep), ArrivingBytes(f.data, 0, size, keep), f.timestamp)
  {
    var end := ChunkEnd(|f.data|, 0, size);
    var (more, rest) := (ArrivingBytes(f.data, end, size, keep[1..]), Arriving(f, end, size, keep[1..]));
    if end == |f.data| {
      LastPacket(s, f, 0);
      assert [PacketAt(f, 0, end)] + [] == [PacketAt(f, 0, end)] && f.data[0..end] + [] == f.data == [] + f.data[0..];
    } else {
      assert [] + f.data[0..end] == f.data[0..end];
      RestArrives(State(f.data[0..end], f.timestamp, true, s.drops), f, end, size, keep[1..]);
      NextPacket(s, f, 0, end, rest, more);
      assert [] + (f.data[0..end] + more) == f.data[0..end] + more;
    }
  }

  /** All bytes arrive exactly when every packet does. */
  lemma {:induction false} ArrivingAll(data: seq<Byte>, at: nat, size: nat, keep: seq<bool>)
    requires size > 0 && at <= |data| && |keep| == Count(|data|, at, size)
    ensures All(keep) ==> ArrivingBytes(data, at, size, keep) == data[at..]
    ensures !All(keep) ==> |ArrivingBytes(data, at, size, keep)| < |data| - at
    decreases |data| - at
  {
    if at < |data| {
      var end := ChunkEnd(|data|, at, size);
      ArrivingAll(data, end, size, keep[1..]);
      assert keep == [keep[0]] + keep[1..];
      assert data[at..end] + data[end..] == data[at..];
    }
  }

  /** A packet that continues nothing is dropped. */
  lemma StepDropped(s: State, f: Source, at: nat, end: nat)
    requires 0 < at < end <= |f.data| && !(s.inProgress && s.timestamp == f.timestamp)
    ensures Step(s, PacketAt(f, at, end)) == (s.(drops := s.drops + 1), [])
  {
    PayloadParses(f.id, at == 0, end == |f.data|, f.data[at..end]);
  }

  /** Without its first packet, the rest of a frame is dropped. */
  lemma {:induction false} RestDropped(s: State, f: Source, at: nat, size: nat, keep: seq<bool>)
    requires size > 0 && 0 < at <= |f.data| && !(s.inProgress && s.timestamp == f.timestamp)
    ensures Run(s, Arriving(f, at, size, keep)).1 == []
    decreases |f.data| - at
  {
    if at < |f.data| && keep != [] {
      var end := ChunkEnd(|f.data|, at, size);
      var rest := Arriving(f, end, size, keep[1..]);
      if keep[0] {
        StepDropped(s, f, at, end);
        RunFirst(s, PacketAt(f, at, end), rest);
        RestDropped(s.(drops := s.drops + 1), f, end, size, keep[1..]);
      } else {
        RestDropped(s, f, end, size, keep[1..]);
        assert [] + rest == rest;
      }
    }
  }

  /** Without its last packet, a frame is not handed out. */
  lemma {:induction false} RestUnfinished(s: State, f: Source, at: nat, size: nat, keep: seq<bool>)
    requires size > 0 && at < |f.data| && (at == 0 || (s.inProgress && s.timestamp == f.timestamp))
    requires |keep| == Count(|f.data|, at, size) && !keep[|keep| - 1] && (at == 0 ==> keep[0])
    ensures Run(s, Arriving(f, at, size, keep)).1 == []
    decreases |f.data| - at
  {
    var end := ChunkEnd(|f.data|, at, size);
    var rest := Arriving(f, end, size, keep[1..]);
    if end < |f.data| {
      if keep[0] {
        StepPacket(s, f, at, end);
        RunFirst(s, PacketAt(f, at, end), rest);
        RestUnfinished(Step(s, PacketAt(f, at, end)).0, f, end, size, keep[1..]);
      } else {
        RestUnfinished(s, f, end, size, keep[1..]);
        assert [] + rest == rest;
      }
    }
  }

  /**
   What comes out of any loss within one frame, unless the depacketizer is in the middle of one with its timestamp.
   */
  lemma FrameUnderLoss(s: State, f: Source, size: nat, keep: seq<bool>)
    requires size > 0 && f.data != [] && |keep| == Count(|f.data|, 0, size)
    requires !(s.inProgress && s.timestamp == f.timestamp)
    ensures Run(s, Arriving(f, 0, size, keep)).1
            == if keep[0] && keep[|keep| - 1] then [Frame(ArrivingBytes(f.data, 0, size, keep), f.timestamp)] else []
  {
    if !keep[0] {
      var end := ChunkEnd(|f.data|, 0, size);
      RestDropped(s, f, end, size, keep[1..]);
      assert [] + Arriving(f, end, size, keep[1..]) == Arriving(f, end, size, keep[1..]);
    } else if !keep[|keep| - 1] {
      RestUnfinished(s, f, 0, size, keep);
    } else {
      FrameArrives(s, f, size, keep);
    }
  }

  /**
   Loss inside a frame goes unnoticed: under any loss the frame comes out intact if and only if no packet was lost.
   */
  lemma IntactIffAllArrive(s: State, f: Source, size: nat, keep: seq<bool>)
    requires size > 0 && f.data != [] && |keep| == Count(|f.data|, 0, size)
    requires !(s.inProgress && s.timestamp == f.timestamp)
    ensures Run(s, Arriving(f, 0, size, keep)).1 == [Frame(f.data, f.timestamp)] <==> All(keep)
  {
    FrameUnderLoss(s, f, size, keep);
    ArrivingAll(f.data, 0, size, keep);
    assert f.data[0..] == f.data;
  }

  /** A frame of three packets without the middle one comes out, as a frame of the other two. */
  lemma MiddleLossGoesUnnoticed(s: State, f: Source, size: nat)
    requires size > 0 && |f.data| == 3 * size && !(s.inProgress && s.timestamp == f.timestamp)
    ensures Run(s, Arriving(f, 0, size, [true, false, true])).1
            == [Frame(f.data[..size] + f.data[2 * size..], f.timestamp)]
  {
    var keep := [true, false, true];
    assert Count(|f.data|, 2 * size, size) == 1 && Count(|f.data|, size, size) == 2;
    assert keep[1..] == [false, true] && keep[1..][1..] == [true];
    assert ArrivingBytes(f.data, 2 * size, size, [true]) == f.data[2 * size..];
    assert ArrivingBytes(f.data, size, size, [false, true]) == f.data[2 * size..];
    FrameUnderLoss(s, f, size, keep);
  }

  // ----- any loss, repetition and reordering

  /**
   A packet of the `frame`-th frame, from byte `at` on; any offset will do, also ones the payloader does not cut at.
   */
  datatype Piece = Piece(frame: nat, at: nat)

  predicate Sent(fs: seq<Source>, d: Piece) { d.frame < |fs| && d.at < |fs[d.frame].data| }

  ghost predicate AllSent(fs: seq<Source>, history: seq<Piece>)
  {
    forall n {:trigger history[n]} | 0 <= n < |history| :: Sent(fs, history[n])
  }

  function PacketOf(fs: seq<Source>, size: nat, d: Piece): (p: Packet)
    requires size > 0 && Sent(fs, d)
  {
    var f := fs[d.frame];
    PacketAt(f, d.at, ChunkEnd(|f.data|, d.at, size))
  }

  function Delivered(fs: seq<Source>, size: nat, history: seq<Piece>): (ps: seq<Packet>)
    requires size > 0 && AllSent(fs, history)
  {
    if history == [] then []
    else
      var m := |history| - 1;
      Delivered(fs, size, history[..m]) + [PacketOf(fs, size, history[m])]
  }

  /** The bytes of the packets of one frame that start at the given offsets. */
  function Glued(data: seq<Byte>, size: nat, ats: seq<nat>): (b: seq<Byte>)
    requires size > 0 && forall k | 0 <= k < |ats| :: ats[k] < |data|
  {
    if ats == [] then []
    else
      var m := |ats| - 1;
      Glued(data, size, ats[..m]) + data[ats[m]..ChunkEnd(|data|, ats[m], size)]
  }

  /** `b` is glued from packets of frame `i` that were delivered, its first packet first. */
  ghost predicate MadeOf(fs: seq<Source>, size: nat, history: seq<Piece>, b: seq<Byte>, i: nat, ats: seq<nat>)
    requires size > 0
  {
    && i < |fs| && ats != [] && ats[0] == 0
    && (forall k {:trigger ats[k]} | 0 <= k < |ats| :: ats[k] < |fs[i].data| && Piece(i, ats[k]) in history)
    && b == Glued(fs[i].data, size, ats)
  }

  /** What is being put together comes from one frame. */
  ghost predicate Holds(fs: seq<Source>, size: nat, history: seq<Piece>, s: State)
    requires size > 0
  {
    s.inProgress ==>
      exists i: nat, ats: seq<nat> :: MadeOf(fs, size, history, s.buffer, i, ats) && s.timestamp == fs[i].timestamp
  }

  /** A frame handed out is glued from packets of one frame, from its first packet to its last. */
  ghost predicate FromOne(fs: seq<Source>, size: nat, history: seq<Piece>, x: Frame)
    requires size > 0
  {
    exists i: nat, ats: seq<nat> :: MadeOf(fs, size, history, x.data, i, ats) && x.timestamp == fs[i].timestamp
                     && ChunkEnd(|fs[i].data|, ats[|ats| - 1], size) == |fs[i].data|
  }

  ghost predicate DistinctTimestamps(fs: seq<Source>)
  {
    forall i, j {:trigger fs[i], fs[j]} | 0 <= i < j < |fs| :: fs[i].timestamp != fs[j].timestamp
  }

  lemma GlueOne(fs: seq<Source>, size: nat, history: seq<Piece>, b: seq<Byte>, i: nat, ats: seq<nat>, at: nat)
    requires size > 0 && i < |fs| && at < |fs[i].data|
    requires if at == 0 then ats == [] && b == [] else MadeOf(fs, size, history, b, i, ats)
    ensures MadeOf(fs, size, history + [Piece(i, at)], b + fs[i].data[at..ChunkEnd(|fs[i].data|, at, size)], i,
            ats + [at])
  {
    assert (ats + [at])[..|ats|] == ats;
    assert Piece(i, at) in history + [Piece(i, at)];
  }

  /**
   The depacketizer takes in a packet of frame `i`, with what it holds of that frame; `ats` is empty at the first
   packet.
   */
  lemma Takes(fs: seq<Source>, size: nat, history: seq<Piece>, s: State, i: nat, ats: seq<nat>, at: nat)
    requires size > 0 && i < |fs| && at < |fs[i].data|
    requires if at == 0 then ats == []
             else s.inProgress && s.timestamp == fs[i].timestamp && MadeOf(fs, size, history, s.buffer, i, ats)
    ensures var (s', frames) := Step(s, PacketOf(fs, size, Piece(i, at)));
            && Holds(fs, size, history + [Piece(i, at)], s')
            && |frames| <= 1 && (frames != [] ==> FromOne(fs, size, history + [Piece(i, at)], frames[0]))
  {
    var f := fs[i];
    var end := ChunkEnd(|f.data|, at, size);
    StepPacket(s, f, at, end);
    var held := if at == 0 then [] else s.buffer;
    GlueOne(fs, size, history, held, i, ats, at);
    assert (ats + [at])[|ats + [at]| - 1] == at;
  }

  lemma StillHolds(fs: seq<Source>, size: nat, history: seq<Piece>, d: Piece, s: State)
    requires size > 0 && Holds(fs, size, history, s)
    ensures Holds(fs, size, history + [d], s.(drops := s.drops + 1))
  {
    if s.inProgress {
      var i: nat, ats: seq<nat> :| MadeOf(fs, size, history, s.buffer, i, ats) && s.timestamp == fs[i].timestamp;
      assert MadeOf(fs, size, history + [d], s.buffer, i, ats);
    }
  }

  lemma DeliverOne(fs: seq<Source>, size: nat, history: seq<Piece>, s: State, d: Piece)
    requires size > 0 && DistinctTimestamps(fs) && Sent(fs, d) && Holds(fs, size, history, s)
    ensures var (s', frames) := Step(s, PacketOf(fs, size, d));
            && Holds(fs, size, history + [d], s')
            && |frames| <= 1 && (frames != [] ==> FromOne(fs, size, history + [d], frames[0]))
  {
    var f := fs[d.frame];
    if d.at == 0 {
      Takes(fs, size, history, s, d.frame, [], 0);
    } else if s.inProgress && s.timestamp == f.timestamp {
      var i: nat, ats: seq<nat> :| MadeOf(fs, size, history, s.buffer, i, ats) && s.timestamp == fs[i].timestamp;
      assert i == d.frame;
      Takes(fs, size, history, s, i, ats, d.at);
    } else {
      StepDropped(s, f, d.at, ChunkEnd(|f.data|, d.at, size));
      StillHolds(fs, size, history, d, s);
    }
  }

  ghost predicate AllFromOne(fs: seq<Source>, size: nat, history: seq<Piece>, xs: seq<Frame>)
    requires size > 0
  {
    forall n {:trigger xs[n]} | 0 <= n < |xs| :: FromOne(fs, size, history, xs[n])
  }

  lemma StillFromOne(fs: seq<Source>, size: nat, history: seq<Piece>, d: Piece, x: Frame)
    requires size > 0 && FromOne(fs, size, history, x)
    ensures FromOne(fs, size, history + [d], x)
  {
    var i: nat, ats: seq<nat> :| MadeOf(fs, size, history, x.data, i, ats) && x.timestamp == fs[i].timestamp
                  && ChunkEnd(|fs[i].data|, ats[|ats| - 1], size) == |fs[i].data|;
    assert MadeOf(fs, size, history + [d], x.data, i, ats);
  }

  /**
   Frames with distinct timestamps, their packets lost, repeated and reordered in any way: every frame handed out is
   glued from packets of a single frame that did arrive, from its first packet to its last.
   */
  lemma {:induction false} NeverMixed(fs: seq<Source>, size: nat, s: State, history: seq<Piece>)
    requires size > 0 && DistinctTimestamps(fs) && AllSent(fs, history) && !s.inProgress
    ensures var (s', xs) := Run(s, Delivered(fs, size, history));
            Holds(fs, size, history, s') && AllFromOne(fs, size, history, xs)
  {
    if history != [] {
      var m := |history| - 1;
      var (before, d) := (history[..m], history[m]);
      NeverMixed(fs, size, s, before);
      var (mid, xs) := Run(s, Delivered(fs, size, before));
      DeliverOne(fs, size, before, mid, d);
      Snoc(history);
      forall n | 0 <= n < |xs| ensures FromOne(fs, size, history, xs[n]) { StillFromOne(fs, size, before, d, xs[n]); }
      RunSnoc(s, Delivered(fs, size, before), PacketOf(fs, size, d));
    }
  }

  lemma RunSnoc(s: State, ps: seq<Packet>, p: Packet)
    ensures Run(s, ps + [p]).0 == Step(Run(s, ps).0, p).0
    ensures Run(s, ps + [p]).1 == Run(s, ps).1 + Step(Run(s, ps).0, p).1
  {
    RunJoin(s, ps, [p]);
    var t := Run(s, ps).0;
    assert [p][1..] == [] && Step(t, p).1 + [] == Step(t, p).1;
  }

  // ----- lossless delivery of any number of frames

  function Everything(n: nat): (keep: seq<bool>)
    ensures |keep| == n && All(keep)
  {
    seq(n, i => true)
  }

  /** The packets the payloader makes of a frame. */
  function Packets(f: Source, size: nat): (ps: seq<Packet>)
    requires size > 0
  {
    Arriving(f, 0, size, Everything(Count(|f.data|, 0, size)))
  }

  /** They are the payloader's payloads, in order. */
  lemma {:induction false} PacketsArePayloads(f: Source, at: nat, size: nat, keep: seq<bool>)
    requires size > 0 && at <= |f.data| && All(keep) && |keep| == Count(|f.data|, at, size)
    ensures |Arriving(f, at, size, keep)| == |Payloads(f.data, at, size, f.id)|
    ensures forall i | 0 <= i < |Arriving(f, at, size, keep)| ::
              Arriving(f, at, size, keep)[i].payload == Payloads(f.data, at, size, f.id)[i]
    decreases |f.data| - at
  {
    if at < |f.data| { PacketsArePayloads(f, ChunkEnd(|f.data|, at, size), size, keep[1..]); }
  }

  function Stream(fs: seq<Source>, size: nat): (ps: seq<Packet>)
    requires size > 0
  {
    if fs == [] then [] else Packets(fs[0], size) + Stream(fs[1..], size)
  }

  function Frames(fs: seq<Source>): (frames: seq<Frame>)
  {
    if fs == [] then [] else [Frame(fs[0].data, fs[0].timestamp)] + Frames(fs[1..])
  }

  lemma {:induction false} RunJoin(s: State, a: seq<Packet>, b: seq<Packet>)
    ensures Run(s, a + b).0 == Run(Run(s, a).0, b).0
    ensures Run(s, a + b).1 == Run(s, a).1 + Run(Run(s, a).0, b).1
    decreases |a|
  {
    if a == [] {
      assert [] + b == b;
      assert [] + Run(s, b).1 == Run(s, b).1;
    } else {
      assert (a + b)[1..] == a[1..] + b;
      var s' := Step(s, a[0]).0;
      RunJoin(s', a[1..], b);
      Assoc3(Step(s, a[0]).1, Run(s', a[1..]).1, Run(Run(s', a[1..]).0, b).1);
    }
  }

  /** Any frames, any mtu, any state: pushed in order, all of them come back exactly. */
  lemma {:induction false} LosslessStream(s: State, fs: seq<Source>, mtu: nat)
    requires forall i | 0 <= i < |fs| :: fs[i].data != []
    ensures Run(s, Stream(fs, MaxChunk(mtu))).1 == Frames(fs)
    decreases |fs|
  {
    if fs != [] {
      var size := MaxChunk(mtu);
      var first, rest := Packets(fs[0], size), Stream(fs[1..], size);
      var keep := Everything(Count(|fs[0].data|, 0, size));
      FrameArrives(s, fs[0], size, keep);
      ArrivingAll(fs[0].data, 0, size, keep);
      assert fs[0].data[0..] == fs[0].data;
      RunJoin(s, first, rest);
      LosslessStream(Run(s, first).0, fs[1..], mtu);
    }
  }
}

/** Which RTCP packets survive the wire: the range of `RtcpCompound` is exact (src/rtp.rs). */
module RtcpRange {
  import opened Wrappers
  import opened Bytes
  import opened Rtcp
  import opened RtcpCompound
  import Nack

  // ----- what a parser can return

  function ItemsWeight(items: seq<SdesItem>): (w: nat)
  {
    if items == [] then 0 else 2 + |items[0].text| + ItemsWeight(items[1..])
  }

  /** Sources and items, without end marks and fill. */
  function ChunksWeight(cs: seq<SdesChunk>): (w: nat)
  {
    if cs == [] then 0 else 4 + ItemsWeight(cs[0].items) + ChunksWeight(cs[1..])
  }

  lemma {:induction false} SkipStays(b: seq<Byte>, at: nat)
    requires at <= |b|
    ensures Skip(b, at) <= |b|
    decreases |b| - at
  {
    if !Even4(at) && at < |b| { SkipStays(b, at + 1); }
  }

  /** Items that were read have a kind, at most 255 bytes of text, and stood in the body. */
  lemma {:induction false} ItemsAtBounds(b: seq<Byte>, at: nat)
    requires at <= |b| && ItemsAt(b, at).Ok?
    ensures var r := ItemsAt(b, at).value; ItemsOk(r.items) && at + ItemsWeight(r.items) <= r.next <= |b|
    decreases |b| - at
  {
    if at < |b| {
      if b[at] == 0 {
        SkipStays(b, at + 1);
      } else {
        ItemsAtBounds(b, at + 2 + b[at + 1]);
      }
    }
  }

  lemma {:induction false} ChunksAtBounds(b: seq<Byte>, at: nat, n: nat)
    requires at <= |b| && ChunksAt(b, at, n).Ok?
    ensures var cs := ChunksAt(b, at, n).value;
            |cs| == n && at + ChunksWeight(cs) <= |b| && forall i | 0 <= i < n :: ChunkOk(cs[i])
    decreases n
  {
    if n > 0 {
      ItemsAtBounds(b, at + 4);
      ChunksAtBounds(b, ItemsAt(b, at + 4).value.next, n - 1);
    }
  }

  // ----- how long a builder's body is

  lemma {:induction false} ItemsLength(items: seq<SdesItem>)
    ensures |ItemsBytes(items)| == ItemsWeight(items)
  {
    if items != [] { ItemsLength(items[1..]); }
  }

  lemma {:induction false} ChunksLength(cs: seq<SdesChunk>)
    ensures |ChunksBytes(cs)| <= ChunksWeight(cs) + 4 * |cs|
  {
    if cs != [] {
      ItemsLength(cs[0].items);
      ChunksLength(cs[1..]);
    }
  }

  lemma {:induction false} PidsClimb(pairs: seq<Nack.Pair>, s: seq<U16>, n: nat)
    requires Nack.Apart(pairs, s) && n < |pairs|
    ensures pairs[n].pid >= 17 * n
  {
    if n > 0 { PidsClimb(pairs, s, n - 1); }
  }

  /** A NACK always fits: its pids are 17 apart. */
  lemma NackFits(p: RtcpPacket)
    requires p.GenericNack?
    ensures |NackBody(p)| <= 4 * 0xFFFF
  {
    Nack.SortedIncreasing(p.missing);
    var s := Nack.Sorted(p.missing);
    Nack.PidsApart(s);
    if Nack.Pack(s) != [] { PidsClimb(Nack.Pack(s), s, |Nack.Pack(s)| - 1); }
  }

  // ----- a packet out of range is lost

  /** `b` is what the length field leaves of the body of `p`. */
  predicate CutBody(p: RtcpPacket, b: seq<Byte>)
    requires BodyOf(p).Ok?
  {
    var full := Fill(BodyOf(p).value);
    |full| > 4 * 0xFFFF ==> |b| + 0x4_0000 <= |full|
  }

  lemma ReportLost(p: RtcpPacket, fmt: nat, b: seq<Byte>)
    requires (p.SenderReport? || p.ReceiverReport?) && !InRange(p) && fmt <= 31
    ensures ParseBody(TypeOf(p), fmt, b) != Ok(Some(Normal(p)))
  {
    assert |p.blocks| > 31;
  }

  lemma GoodbyeLost(p: RtcpPacket, fmt: nat, b: seq<Byte>)
    requires p.Goodbye? && !InRange(p) && fmt <= 31
    ensures ParseBody(BYE, fmt, b) != Ok(Some(Normal(p)))
  {
    assert |p.sources| > 31;
  }

  lemma DescriptionLost(p: RtcpPacket, fmt: nat, b: seq<Byte>)
    requires p.SourceDescription? && !InRange(p) && fmt <= 31 && CutBody(p, b)
    ensures ParseBody(SDES, fmt, b) != Ok(Some(p))
  {
    if ChunksAt(b, 0, fmt).Ok? {
      ChunksAtBounds(b, 0, fmt);
      ChunksLength(p.chunks);
      NoFill(ChunksBytes(p.chunks));
    }
  }

  lemma FirLost(p: RtcpPacket, fmt: nat, b: seq<Byte>)
    requires p.FullIntraRequest? && !InRange(p) && CutBody(p, b)
    ensures ParseBody(PSFB, fmt, b) != Ok(Some(p))
  {
    AlignedBody(p);
  }

  lemma TwccLost(p: RtcpPacket, fmt: nat, b: seq<Byte>)
    requires p.TransportWideCc? && !InRange(p) && CutBody(p, b)
    ensures ParseBody(RTPFB, fmt, b) != Ok(Some(Normal(p)))
  {
    GapShift(16, |p.payload|);
  }

  lemma OutOfRangeIsLost(p: RtcpPacket, fmt: nat, b: seq<Byte>)
    requires BodyOf(p).Ok? && !InRange(p) && fmt <= 31 && CutBody(p, b)
    ensures ParseBody(TypeOf(p), fmt, b) != Ok(Some(Normal(p)))
  {
    match p
    case SenderReport(_, _, _, _, _, _, _) => ReportLost(p, fmt, b);
    case ReceiverReport(_, _) => ReportLost(p, fmt, b);
    case SourceDescription(_) => DescriptionLost(p, fmt, b);
    case Goodbye(_, _) => GoodbyeLost(p, fmt, b);
    case GenericNack(_, _, _) => NackFits(p);
    case TransportWideCc(_, _, _, _, _, _, _) => TwccLost(p, fmt, b);
    case PictureLossIndication(_, _) =>
    case FullIntraRequest(_, _) => FirLost(p, fmt, b);
    case RemoteBitrateEstimate(_, _, _) =>
  }

  // ----- compound packets

  /** A known type is never skipped. */
  lemma NeverSkipped(p: RtcpPacket, fmt: nat, b: seq<Byte>)
    ensures ParseBody(TypeOf(p), fmt, b) != Ok(None)
  {
  }

  lemma FrontByte(x: Byte)
    requires x < 32
    ensures (0x80 + x) / 64 == 2 && (0x80 + x) / 32 % 2 == 0 && (0x80 + x) % 32 == x
  {
  }

  lemma CutLength(n: nat)
    ensures n > 0xFFFF ==> n % 0x1_0000 + 0x1_0000 <= n
  {
  }

  lemma CutFrame(raw: seq<Byte>, at: nat, fmt: Byte, t: Byte, body: seq<Byte>, end: nat)
    requires at <= end <= |raw| && raw[at..end] == Frame(fmt, t, body)
    ensures at + 4 <= |raw|
    ensures var r := SubPacketAt(raw, at);
            r.Ok? ==> r.value.kind == t && r.value.fmt <= 31 && |r.value.body| == 4 * (|Fill(body)| / 4 % 0x1_0000)
  {
    FrameHead(raw, at, fmt, t, body, end);
    FrontByte(fmt % 32);
  }

  lemma FrameIsCut(raw: seq<Byte>, at: nat, p: RtcpPacket, end: nat)
    requires BodyOf(p).Ok? && at <= end <= |raw| && raw[at..end] == FrameOf(p)
    ensures at + 4 <= |raw|
    ensures var r := SubPacketAt(raw, at);
            r.Ok? ==> r.value.kind == TypeOf(p) && r.value.fmt <= 31 && CutBody(p, r.value.body)
  {
    CutFrame(raw, at, FmtOf(p), TypeOf(p), BodyOf(p).value, end);
    CutLength(|Fill(BodyOf(p).value)| / 4);
  }

  lemma FirstIsLost(raw: seq<Byte>, at: nat, ps: seq<RtcpPacket>, end: nat)
    requires ps != [] && BodyOf(ps[0]).Ok? && !InRange(ps[0])
    requires at <= end <= |raw| && raw[at..end] == FrameOf(ps[0])
    ensures ParseAll(raw, at) != Ok(NormalAll(ps))
  {
    FrameIsCut(raw, at, ps[0], end);
    if SubPacketAt(raw, at).Ok? {
      var s := SubPacketAt(raw, at).value;
      OutOfRangeIsLost(ps[0], s.fmt, s.body);
      NeverSkipped(ps[0], s.fmt, s.body);
      FirstDiffers(raw, at, s, ParseBody(s.kind, s.fmt, s.body), ps);
    }
  }

  lemma FirstDiffers(raw: seq<Byte>, at: nat, s: SubPacket, o: Result<Option<RtcpPacket>, RtcpError>,
                     ps: seq<RtcpPacket>)
    requires ps != [] && at + 4 <= |raw| && SubPacketAt(raw, at) == Ok(s)
    requires ParseBody(s.kind, s.fmt, s.body) == o && o != Ok(None) && o != Ok(Some(Normal(ps[0])))
    ensures ParseAll(raw, at) != Ok(NormalAll(ps))
  {
    if o.Ok? && ParseAll(raw, at).Ok? {
      assert ParseAll(raw, at).value[0] == o.value.value;
      assert NormalAll(ps)[0] == Normal(ps[0]);
    }
  }

  lemma LaterOutOfRange(ps: seq<RtcpPacket>)
    requires (forall n | 0 <= n < |ps| :: BodyOf(ps[n]).Ok?) && !AllInRange(ps) && InRange(ps[0])
    ensures (forall n | 0 <= n < |ps[1..]| :: BodyOf(ps[1..][n]).Ok?) && !AllInRange(ps[1..])
  {
    var n :| 0 <= n < |ps| && !InRange(ps[n]);
    assert ps[1..][n - 1] == ps[n];
  }

  lemma LaterDiffers(q: RtcpPacket, r: Result<seq<RtcpPacket>, RtcpError>, qs: seq<RtcpPacket>)
    requires r != Ok(qs)
    ensures Joined([q], r) != Ok([q] + qs)
  {
    if r.Ok? { assert ([q] + r.value)[1..] == r.value && ([q] + qs)[1..] == qs; }
  }

  lemma {:induction false} FramesLost(raw: seq<Byte>, at: nat, ps: seq<RtcpPacket>)
    requires (forall n | 0 <= n < |ps| :: BodyOf(ps[n]).Ok?) && !AllInRange(ps)
    requires at <= |raw| && raw[at..] == Frames(ps)
    ensures ParseAll(raw, at) != Ok(NormalAll(ps))
    decreases |ps|
  {
    var p := ps[0];
    var end := FirstFrame(raw, at, ps);
    if InRange(p) {
      FrameRead(raw, at, p, end);
      LaterOutOfRange(ps);
      FramesLost(raw, end, ps[1..]);
      LaterDiffers(Normal(p), ParseAll(raw, end), NormalAll(ps[1..]));
    } else {
      FirstIsLost(raw, at, ps, end);
    }
  }

  /**
   Whatever is marshalled parses back in order, each packet in its normal form, exactly when every packet is in range:
   counts below 32, item kinds other than zero, item texts of at most 255 bytes, bodies of at most 65535 words.
   */
  lemma RoundTripIff(ps: seq<RtcpPacket>)
    requires MarshalAll(ps).Ok?
    ensures ParseAll(MarshalAll(ps).value, 0) == Ok(NormalAll(ps)) <==> AllInRange(ps)
  {
    BodiesBuilt(ps);
    if AllInRange(ps) {
      CompoundRoundTrip(ps);
    } else {
      MarshalIsFrames(ps);
      var raw := Frames(ps);
      assert raw[0..] == raw;
      FramesLost(raw, 0, ps);
    }
  }

  lemma OneFrame(fmt: Byte, t: Byte, body: seq<Byte>, p: RtcpPacket)
    requires |body| <= 4 * 0xFFFF && ParseBody(t, fmt % 32, Fill(body)) == Ok(Some(p))
    ensures ParseAll(Frame(fmt, t, body), 0) == Ok([p])
  {
    var raw := Frame(fmt, t, body);
    assert raw[0..|raw|] == raw;
    FrameAt(raw, 0, fmt, t, body, |raw|);
    assert ParseAll(raw, |raw|) == Ok([]) && [p] + [] == [p];
    assert ParseAll(raw, 0) == Joined([p], ParseAll(raw, |raw|));
  }

  /** A receiver report with 32 blocks is marshalled, and parses back as one with none. */
  lemma BlocksAreLost(ssrc: U32, blocks: seq<ReportBlock>)
    requires |blocks| == 32
    ensures var m := MarshalAll([ReceiverReport(ssrc, blocks)]);
            m.Ok? && ParseAll(m.value, 0) == Ok([ReceiverReport(ssrc, [])])
  {
    var p := ReceiverReport(ssrc, blocks);
    var body := ReceiverBody(p);
    Read32(ssrc, [], BlocksBytes(blocks));
    assert [] + Be32(ssrc) + BlocksBytes(blocks) == body == Fill(body);
    OneFrame(32, RR, body, ReceiverReport(ssrc, []));
    assert [p][..0] == [] && [] + Frame(32, RR, body) == Frame(32, RR, body);
  }

  lemma BodiesBuilt(ps: seq<RtcpPacket>)
    requires MarshalAll(ps).Ok?
    ensures forall n | 0 <= n < |ps| :: BodyOf(ps[n]).Ok?
  {
    assert forall n | 0 <= n < |ps| :: !Refused(ps[n]) by { MarshalFailsIff(ps); }
    NoneRefused(ps);
  }

  lemma NoneRefused(ps: seq<RtcpPacket>)
    requires forall n | 0 <= n < |ps| :: !Refused(ps[n])
    ensures forall n | 0 <= n < |ps| :: BodyOf(ps[n]).Ok?
  {
    forall n | 0 <= n < |ps| ensures BodyOf(ps[n]).Ok? { RefusedIff(ps[n]); }
  }
}

/** The framing of RTCP packets and the compound round trip (src/rtp.rs). */
module RtcpCompound {
  import opened Wrappers
  import opened Bytes
  import opened Rtcp
  import Modular
  import Nack
  import Twcc

  const SR: Byte := 200
  const RR: Byte := 201
  const SDES: Byte := 202
  const BYE: Byte := 203
  const RTPFB: Byte := 205
  const PSFB: Byte := 206

  // ----- one packet

  function TypeOf(p: RtcpPacket): (t: Byte)
  {
    match p
    case SenderReport(_, _, _, _, _, _, _) => SR
    case ReceiverReport(_, _) => RR
    case SourceDescription(_) => SDES
    case Goodbye(_, _) => BYE
    case GenericNack(_, _, _) => RTPFB
    case TransportWideCc(_, _, _, _, _, _, _) => RTPFB
    case PictureLossIndication(_, _) => PSFB
    case FullIntraRequest(_, _) => PSFB
    case RemoteBitrateEstimate(_, _, _) => PSFB
  }

  /** The five-bit count or format field, as the code computes it from a length cast to `u8`. */
  function FmtOf(p: RtcpPacket): (f: Byte)
  {
    match p
    case SenderReport(_, _, _, _, _, _, blocks) => |blocks| % 256
    case ReceiverReport(_, blocks) => |blocks| % 256
    case SourceDescription(chunks) => |chunks| % 256
    case Goodbye(sources, _) => |sources| % 256
    case GenericNack(_, _, _) => 1
    case TransportWideCc(_, _, _, _, _, _, _) => 15
    case PictureLossIndication(_, _) => 1
    case FullIntraRequest(_, _) => 4
    case RemoteBitrateEstimate(_, _, _) => 15
  }

  function BodyOf(p: RtcpPacket): (r: Result<seq<Byte>, RtcpError>)
  {
    match p
    case SenderReport(_, _, _, _, _, _, _) => Ok(SenderBody(p))
    case ReceiverReport(_, _) => Ok(ReceiverBody(p))
    case SourceDescription(chunks) => Ok(ChunksBytes(chunks))
    case Goodbye(_, _) => Ok(GoodbyeBody(p))
    case GenericNack(_, _, missing) => if missing == [] then Err(InvalidRtcp) else Ok(NackBody(p))
    case TransportWideCc(_, _, _, _, _, _, _) => Ok(TwccBody(p))
    case PictureLossIndication(ssrc, media) => Ok(Be32(ssrc) + Be32(media))
    case FullIntraRequest(_, _) => Ok(FirBody(p))
    case RemoteBitrateEstimate(_, _, ssrcs) => if |ssrcs| > 255 then Err(InvalidRtcp) else Ok(RembBody(p))
  }

  /** What the parser makes of a body: `None` for types it skips. */
  function ParseBody(t: Byte, fmt: nat, b: seq<Byte>): (r: Result<Option<RtcpPacket>, RtcpError>)
  {
    if t == SR then Found(ParseSender(fmt, b))
    else if t == RR then Found(ParseReceiver(fmt, b))
    else if t == SDES then
      match ChunksAt(b, 0, fmt)
      case Err(e) => Err(e)
      case Ok(cs) => Ok(Some(SourceDescription(cs)))
    else if t == BYE then Found(ParseGoodbye(fmt, b))
    else if t == RTPFB then
      if fmt == 1 then Found(ParseNack(b)) else if fmt == 15 then Found(ParseTwcc(b)) else Err(InvalidRtcp)
    else if t == PSFB then
      if fmt == 1 then Found(ParsePli(b))
      else if fmt == 4 then Found(ParseFir(b))
      else if fmt == 15 then Found(ParseRemb(b))
      else Err(InvalidRtcp)
    else Ok(None)
  }

  function Found(r: Result<RtcpPacket, RtcpError>): (o: Result<Option<RtcpPacket>, RtcpError>)
  {
    if r.Ok? then Ok(Some(r.value)) else Err(r.error)
  }

  /** What a packet becomes on its way through the wire. */
  function Normal(p: RtcpPacket): (r: RtcpPacket)
  {
    match p
    case SenderReport(_, _, _, _, _, _, _) => WithClamped(p)
    case ReceiverReport(_, _) => WithClamped(p)
    case SourceDescription(_) => p
    case Goodbye(sources, reason) => Goodbye(sources, if reason.None? then None else Some(Cut(reason.value)))
    case PictureLossIndication(_, _) => p
    case FullIntraRequest(_, _) => p
    case GenericNack(ssrc, media, missing) => GenericNack(ssrc, media, Nack.Sorted(missing))
    case RemoteBitrateEstimate(ssrc, bitrate, ssrcs) =>
      FloorBounds(bitrate);
      RemoteBitrateEstimate(ssrc, Floor(bitrate), ssrcs)
    case TransportWideCc(ssrc, media, base, count, reference, feedbackCount, payload) =>
      TransportWideCc(ssrc, media, base, count, reference % 0x100_0000, feedbackCount, Fill(payload))
  }

  /** What the wire can carry: five-bit counts, texts of at most 255 bytes, at most 65535 words. */
  ghost predicate InRange(p: RtcpPacket)
  {
    && BodyOf(p).Ok? && |BodyOf(p).value| <= 4 * 0xFFFF
    && (p.SenderReport? || p.ReceiverReport? ==> |p.blocks| <= 31)
    && (p.Goodbye? ==> |p.sources| <= 31)
    && (p.SourceDescription? ==> |p.chunks| <= 31 && forall n | 0 <= n < |p.chunks| :: ChunkOk(p.chunks[n]))
  }

  lemma TwccFillRead(p: RtcpPacket)
    requires p.TransportWideCc?
    ensures Found(ParseTwcc(Fill(TwccBody(p)))) == Ok(Some(Normal(p)))
  {
    GapShift(16, |p.payload|);
    TwccRead(p, Zeros(Gap(|p.payload|)));
  }

  lemma AlignedBody(p: RtcpPacket)
    requires BodyOf(p).Ok? && !p.Goodbye? && !p.TransportWideCc?
    ensures Fill(BodyOf(p).value) == BodyOf(p).value
  {
    var b := BodyOf(p).value;
    match p {
      case SenderReport(_, _, _, _, _, _, blocks) => FourTimes(|b|, 6 + 6 * |blocks|);
      case ReceiverReport(_, blocks) => FourTimes(|b|, 1 + 6 * |blocks|);
      case SourceDescription(_) =>
      case GenericNack(_, _, missing) =>
        Nack.SortedIncreasing(missing);
        FourTimes(|b|, 2 + |Nack.Pack(Nack.Sorted(missing))|);
      case PictureLossIndication(_, _) => FourTimes(|b|, 2);
      case FullIntraRequest(_, requests) => FourTimes(|b|, 2 + 2 * |requests|);
      case RemoteBitrateEstimate(_, _, ssrcs) => FourTimes(|b|, 4 + |ssrcs|);
    }
    NoFill(b);
  }

  lemma FourTimes(x: nat, n: nat)
    requires x == 4 * n
    ensures Even4(x)
  {
    Modular.Unique(x, 4, n, 0);
  }

  /** The parser finds `q` in the body. */
  predicate Finds(t: Byte, fmt: nat, b: seq<Byte>, q: RtcpPacket) { ParseBody(t, fmt, b) == Ok(Some(q)) }

  lemma FindsSender(fmt: nat, b: seq<Byte>, q: RtcpPacket)
    requires ParseSender(fmt, b) == Ok(q)
    ensures Finds(SR, fmt, b, q)
  {
  }

  lemma FindsReceiver(fmt: nat, b: seq<Byte>, q: RtcpPacket)
    requires ParseReceiver(fmt, b) == Ok(q)
    ensures Finds(RR, fmt, b, q)
  {
  }

  lemma FindsChunks(fmt: nat, b: seq<Byte>, chunks: seq<SdesChunk>)
    requires ChunksAt(b, 0, fmt) == Ok(chunks)
    ensures Finds(SDES, fmt, b, SourceDescription(chunks))
  {
  }

  lemma FindsGoodbye(fmt: nat, b: seq<Byte>, q: RtcpPacket)
    requires ParseGoodbye(fmt, b) == Ok(q)
    ensures Finds(BYE, fmt, b, q)
  {
  }

  lemma FindsFeedback(t: Byte, fmt: nat, b: seq<Byte>, q: RtcpPacket)
    requires (t == RTPFB && fmt == 1 && ParseNack(b) == Ok(q)) || (t == RTPFB && fmt == 15 && ParseTwcc(b) == Ok(q))
             || (t == PSFB && fmt == 1 && ParsePli(b) == Ok(q)) || (t == PSFB && fmt == 4 && ParseFir(b) == Ok(q))
             || (t == PSFB && fmt == 15 && ParseRemb(b) == Ok(q))
    ensures Finds(t, fmt, b, q)
  {
  }

  predicate BodyParses(p: RtcpPacket)
    requires BodyOf(p).Ok?
  {
    Finds(TypeOf(p), FmtOf(p) % 32, Fill(BodyOf(p).value), Normal(p))
  }

  lemma SenderParses(p: RtcpPacket)
    requires p.SenderReport? && |p.blocks| <= 31
    ensures BodyParses(p)
  {
    SmallCount(|p.blocks|);
    AlignedBody(p);
    SenderRead(p);
    FindsSender(|p.blocks|, SenderBody(p), Normal(p));
  }

  lemma ReceiverParses(p: RtcpPacket)
    requires p.ReceiverReport? && |p.blocks| <= 31
    ensures BodyParses(p)
  {
    SmallCount(|p.blocks|);
    AlignedBody(p);
    ReceiverRead(p);
    FindsReceiver(|p.blocks|, ReceiverBody(p), Normal(p));
  }

  lemma ChunksFound(chunks: seq<SdesChunk>)
    requires forall n | 0 <= n < |chunks| :: ChunkOk(chunks[n])
    ensures Fill(ChunksBytes(chunks)) == ChunksBytes(chunks)
    ensures Finds(SDES, |chunks|, ChunksBytes(chunks), SourceDescription(chunks))
  {
    var b := ChunksBytes(chunks);
    NoFill(b);
    assert b[0..|b|] == b;
    SdesRead(b, 0, chunks, |b|);
    FindsChunks(|chunks|, b, chunks);
  }

  lemma DescriptionParses(p: RtcpPacket)
    requires p.SourceDescription? && |p.chunks| <= 31 && forall n | 0 <= n < |p.chunks| :: ChunkOk(p.chunks[n])
    ensures BodyParses(p)
  {
    SmallCount(|p.chunks|);
    ChunksFound(p.chunks);
  }

  lemma SmallCount(n: nat)
    requires n <= 31
    ensures n % 256 % 32 == n
  {
  }

  lemma GoodbyeParses(p: RtcpPacket)
    requires p.Goodbye? && |p.sources| <= 31
    ensures BodyParses(p)
  {
    SmallCount(|p.sources|);
    GoodbyeRead(p);
    FindsGoodbye(|p.sources|, Fill(GoodbyeBody(p)), Normal(p));
  }

  lemma NackParses(p: RtcpPacket)
    requires p.GenericNack? && p.missing != []
    ensures BodyParses(p)
  {
    var (t, fmt, b) := (TypeOf(p), FmtOf(p) % 32, Fill(BodyOf(p).value));
    assert t == RTPFB && fmt == 1;
    assert b == NackBody(p) by { NackFilled(p); }
    assert Finds(t, fmt, b, Normal(p)) by { NackFound(p); }
  }

  lemma NackFilled(p: RtcpPacket)
    requires p.GenericNack? && p.missing != []
    ensures BodyOf(p) == Ok(NackBody(p)) && Fill(NackBody(p)) == NackBody(p)
  {
    AlignedBody(p);
  }

  lemma NackFound(p: RtcpPacket)
    requires p.GenericNack?
    ensures Finds(RTPFB, 1, NackBody(p), Normal(p))
  {
    NackRead(p);
    FindsFeedback(RTPFB, 1, NackBody(p), Normal(p));
  }

  lemma TwccParses(p: RtcpPacket)
    requires p.TransportWideCc?
    ensures BodyParses(p)
  {
    var (t, fmt, b) := (TypeOf(p), FmtOf(p) % 32, Fill(BodyOf(p).value));
    assert t == RTPFB && fmt == 15 && b == Fill(TwccBody(p));
    assert Finds(t, fmt, b, Normal(p)) by {
      TwccFillRead(p);
      FindsFeedback(RTPFB, 15, b, Normal(p));
    }
  }

  lemma PayloadBody(p: RtcpPacket)
    requires InRange(p) && (p.PictureLossIndication? || p.FullIntraRequest? || p.RemoteBitrateEstimate?)
    ensures BodyParses(p)
  {
    AlignedBody(p);
    if p.PictureLossIndication? { PliRead(p); } else if p.FullIntraRequest? { FirRead(p); } else { RembRead(p); }
    FindsFeedback(PSFB, FmtOf(p), Fill(BodyOf(p).value), Normal(p));
  }

  /** Each of the nine parsers undoes its builder, up to the normal form. */
  lemma BodyRead(p: RtcpPacket)
    requires InRange(p)
    ensures BodyParses(p)
  {
    if p.SenderReport? {
      SenderParses(p);
    } else if p.ReceiverReport? {
      ReceiverParses(p);
    } else if p.SourceDescription? {
      DescriptionParses(p);
    } else if p.Goodbye? {
      GoodbyeParses(p);
    } else if p.GenericNack? {
      NackParses(p);
    } else if p.TransportWideCc? {
      TwccParses(p);
    } else {
      PayloadBody(p);
    }
  }

  // ----- framing

  function Frame(fmt: Byte, t: Byte, body: seq<Byte>): (b: seq<Byte>)
  {
    [0x80 + fmt % 32, t] + Be16(|Fill(body)| / 4 % 0x1_0000) + Fill(body)
  }

  /** The fields of a sub-packet: its format, type and body without padding, and where the next one starts. */
  datatype SubPacket = SubPacket(fmt: nat, kind: Byte, body: seq<Byte>, next: nat)

  function SubPacketAt(raw: seq<Byte>, at: nat): (r: Result<SubPacket, RtcpError>)
    requires at + 4 <= |raw|
    ensures r.Ok? ==> at + 4 <= r.value.next <= |raw|
  {
    if raw[at] / 64 != 2 then Err(InvalidRtcp)
    else
      var end := at + 4 + 4 * Get16(raw, at + 2);
      if |raw| < end then Err(Mismatch)
      else if raw[at] / 32 % 2 == 0 then Ok(SubPacket(raw[at] % 32, raw[at + 1], raw[at + 4..end], end))
      else
        var pad := raw[end - 1];
        if pad == 0 || pad > end - at - 4 then Err(InvalidRtcp)
        else Ok(SubPacket(raw[at] % 32, raw[at + 1], raw[at + 4..end - pad], end))
  }

  function Joined(ps: seq<RtcpPacket>, rest: Result<seq<RtcpPacket>, RtcpError>)
    : (r: Result<seq<RtcpPacket>, RtcpError>)
  {
    if rest.Ok? then Ok(ps + rest.value) else rest
  }

  function Optional(o: Option<RtcpPacket>): (ps: seq<RtcpPacket>) { if o.Some? then [o.value] else [] }

  function ParseAll(raw: seq<Byte>, at: nat): (r: Result<seq<RtcpPacket>, RtcpError>)
    decreases |raw| - at
  {
    if at + 4 > |raw| then Ok([])
    else
      match SubPacketAt(raw, at)
      case Err(e) => Err(e)
      case Ok(s) =>
        match ParseBody(s.kind, s.fmt, s.body)
        case Err(e) => Err(e)
        case Ok(o) => Joined(Optional(o), ParseAll(raw, s.next))
  }

  /** Everything marshalled, or the first builder's error. */
  function MarshalAll(ps: seq<RtcpPacket>): (r: Result<seq<Byte>, RtcpError>)
  {
    if ps == [] then Ok([])
    else
      var m := |ps| - 1;
      match MarshalAll(ps[..m])
      case Err(e) => Err(e)
      case Ok(out) =>
        match BodyOf(ps[m])
        case Err(e) => Err(e)
        case Ok(body) => Ok(out + Frame(FmtOf(ps[m]), TypeOf(ps[m]), body))
  }

  function FrameOf(p: RtcpPacket): (b: seq<Byte>)
    requires BodyOf(p).Ok?
    ensures |b| >= 4
  {
    Frame(FmtOf(p), TypeOf(p), BodyOf(p).value)
  }

  /** The concatenation of the frames. */
  function Frames(ps: seq<RtcpPacket>): (b: seq<Byte>)
    requires forall n | 0 <= n < |ps| :: BodyOf(ps[n]).Ok?
  {
    if ps == [] then [] else FrameOf(ps[0]) + Frames(ps[1..])
  }

  lemma FrameHead(raw: seq<Byte>, at: nat, fmt: Byte, t: Byte, body: seq<Byte>, end: nat)
    requires at <= end <= |raw| && raw[at..end] == Frame(fmt, t, body)
    ensures at + 4 <= end && raw[at] == 0x80 + fmt % 32 && raw[at + 1] == t
    ensures raw[at + 4..end] == Fill(body) && Get16(raw, at + 2) == |Fill(body)| / 4 % 0x1_0000
  {
    var f := Fill(body);
    var n := |f| / 4 % 0x1_0000;
    var head := [0x80 + fmt % 32, t];
    FirstOf(raw, at, end, head + Be16(n), f);
    FirstOf(raw, at, at + 4, head, Be16(n));
    assert raw[at] == raw[at..at + 2][0] && raw[at + 1] == raw[at..at + 2][1];
    At16(raw, at + 2, n);
  }

  lemma FrameAt(raw: seq<Byte>, at: nat, fmt: Byte, t: Byte, body: seq<Byte>, end: nat)
    requires at <= end <= |raw| && raw[at..end] == Frame(fmt, t, body) && |body| <= 4 * 0xFFFF
    ensures at + 4 <= |raw| && SubPacketAt(raw, at) == Ok(SubPacket(fmt % 32, t, Fill(body), end))
  {
    FrameHead(raw, at, fmt, t, body, end);
    var n := |Fill(body)| / 4;
    assert |Fill(body)| == 4 * n && n <= 0xFFFF;
    var x := fmt % 32;
    assert (0x80 + x) / 64 == 2 && (0x80 + x) / 32 % 2 == 0 && (0x80 + x) % 32 == x;
  }

  function NormalAll(ps: seq<RtcpPacket>): (ns: seq<RtcpPacket>)
  {
    if ps == [] then [] else [Normal(ps[0])] + NormalAll(ps[1..])
  }

  ghost predicate AllInRange(ps: seq<RtcpPacket>) { forall n | 0 <= n < |ps| :: InRange(ps[n]) }

  /** A packet in range is read from its frame. */
  lemma FrameRead(raw: seq<Byte>, at: nat, p: RtcpPacket, end: nat)
    requires InRange(p) && at <= end <= |raw| && raw[at..end] == FrameOf(p)
    ensures ParseAll(raw, at) == Joined([Normal(p)], ParseAll(raw, end))
  {
    FrameAt(raw, at, FmtOf(p), TypeOf(p), BodyOf(p).value, end);
    BodyRead(p);
  }

  lemma {:induction false} FramesRead(raw: seq<Byte>, at: nat, ps: seq<RtcpPacket>)
    requires AllInRange(ps) && at <= |raw| && raw[at..] == Frames(ps)
    ensures ParseAll(raw, at) == Ok(NormalAll(ps))
    decreases |ps|
  {
    if ps != [] {
      var end := FirstFrame(raw, at, ps);
      FrameRead(raw, at, ps[0], end);
      FramesRead(raw, end, ps[1..]);
    }
  }

  /** Where the first frame ends and the others begin. */
  lemma FirstFrame(raw: seq<Byte>, at: nat, ps: seq<RtcpPacket>) returns (end: nat)
    requires ps != [] && forall n | 0 <= n < |ps| :: BodyOf(ps[n]).Ok?
    requires at <= |raw| && raw[at..] == Frames(ps)
    ensures at <= end <= |raw| && raw[at..end] == FrameOf(ps[0]) && raw[end..] == Frames(ps[1..])
  {
    var (first, rest) := (FrameOf(ps[0]), Frames(ps[1..]));
    assert raw[at..|raw|] == first + rest;
    FirstOf(raw, at, |raw|, first, rest);
    end := at + |first|;
  }

  lemma {:induction false} FramesSnoc(ps: seq<RtcpPacket>, p: RtcpPacket)
    requires (forall n | 0 <= n < |ps| :: BodyOf(ps[n]).Ok?) && BodyOf(p).Ok?
    ensures Frames(ps + [p]) == Frames(ps) + FrameOf(p)
  {
    if ps == [] {
      assert ps + [p] == [p] && [p][1..] == [];
      assert FrameOf(p) + [] == FrameOf(p);
    } else {
      FramesSnoc(ps[1..], p);
      assert (ps + [p])[1..] == ps[1..] + [p];
      Assoc3(FrameOf(ps[0]), Frames(ps[1..]), FrameOf(p));
    }
  }

  lemma {:induction false} MarshalIsFrames(ps: seq<RtcpPacket>)
    requires forall n | 0 <= n < |ps| :: BodyOf(ps[n]).Ok?
    ensures MarshalAll(ps) == Ok(Frames(ps))
  {
    if ps != [] {
      var m := |ps| - 1;
      MarshalIsFrames(ps[..m]);
      FramesSnoc(ps[..m], ps[m]);
      Snoc(ps);
    }
  }

  /** Marshalling fails exactly when a NACK names nothing or a REMB names more than 255 sources. */
  lemma {:induction false} MarshalFailsIff(ps: seq<RtcpPacket>)
    ensures MarshalAll(ps).Err? <==> exists n :: 0 <= n < |ps| && Refused(ps[n])
  {
    if ps != [] {
      var m := |ps| - 1;
      MarshalFailsIff(ps[..m]);
      MarshalSnoc(ps);
      RefusedIff(ps[m]);
      if n :| 0 <= n < |ps| && Refused(ps[n]) {
        assert n == m || Refused(ps[..m][n]);
      }
    }
  }

  lemma MarshalSnoc(ps: seq<RtcpPacket>)
    requires ps != []
    ensures var m := |ps| - 1; MarshalAll(ps).Ok? <==> MarshalAll(ps[..m]).Ok? && BodyOf(ps[m]).Ok?
  {
  }

  lemma RefusedIff(p: RtcpPacket)
    ensures Refused(p) <==> BodyOf(p).Err?
  {
  }

  predicate Refused(p: RtcpPacket)
  {
    || (p.GenericNack? && p.missing == [])
    || (p.RemoteBitrateEstimate? && |p.ssrcs| > 255)
  }

  /** Parsing a marshalled list gives the list back in order, each packet in its normal form. */
  lemma CompoundRoundTrip(ps: seq<RtcpPacket>)
    requires AllInRange(ps)
    ensures MarshalAll(ps).Ok? && ParseAll(MarshalAll(ps).value, 0) == Ok(NormalAll(ps))
  {
    MarshalIsFrames(ps);
    var raw := Frames(ps);
    assert raw[0..] == raw;
    FramesRead(raw, 0, ps);
  }

  /** What the normal form leaves alone. */
  lemma NormalIsIdentity(p: RtcpPacket)
    requires p.SenderReport? || p.ReceiverReport?
             ==> forall n | 0 <= n < |p.blocks| :: -0x80_0000 <= p.blocks[n].lost < 0x80_0000
    requires p.Goodbye? && p.reason.Some? ==> |p.reason.value| <= 255
    requires p.GenericNack? ==> Nack.Increasing(p.missing)
    requires p.RemoteBitrateEstimate? ==> p.bitrate < 0x4_0000
    requires p.TransportWideCc? ==> Even4(|p.payload|) && p.reference < 0x100_0000
    ensures Normal(p) == p
  {
    if p.SenderReport? || p.ReceiverReport? {
      ClampIdentity(p.blocks);
    } else if p.GenericNack? {
      Nack.SortIdentity(p.missing);
    } else if p.RemoteBitrateEstimate? {
      BitratePrecision(p.bitrate);
    } else if p.TransportWideCc? {
      NoFill(p.payload);
    }
  }

  lemma {:induction false} ClampIdentity(rs: seq<ReportBlock>)
    requires forall n | 0 <= n < |rs| :: -0x80_0000 <= rs[n].lost < 0x80_0000
    ensures AllClamped(rs) == rs
  {
    if rs != [] {
      ClampIdentity(rs[..|rs| - 1]);
      Snoc(rs);
    }
  }

  /** Transport-wide feedback still decodes to every status after the wire has padded its payload. */
  lemma FeedbackSurvives(p: RtcpPacket, statuses: seq<Twcc.Status>)
    requires p.TransportWideCc? && InRange(p)
    requires |statuses| <= Twcc.MAX_STATUSES && p.count == |statuses| && p.payload == Twcc.Payload(statuses)
    ensures MarshalAll([p]).Ok?
    ensures var r := ParseAll(MarshalAll([p]).value, 0);
            && r.Ok? && |r.value| == 1 && r.value[0].TransportWideCc?
            && Twcc.Decode(r.value[0].base, r.value[0].count, r.value[0].payload) == Twcc.Entries(statuses, p.base)
  {
    CompoundRoundTrip([p]);
    assert NormalAll([p]) == [Normal(p)] by { assert [p][1..] == []; }
    Twcc.DecodeInvertsEncode(statuses, p.base, Zeros(Gap(|p.payload|)));
  }
}

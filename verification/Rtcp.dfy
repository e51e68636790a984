/**
 RTCP compound packets: nine packet kinds, each with its builder and parser, and the framing around them (src/rtp.rs).
 */
module Rtcp {
  import opened Wrappers
  import opened Bytes
  import opened Rtp
  import Nack
  import Modular

  datatype ReportBlock = ReportBlock(ssrc: U32, fraction: Byte, lost: int, highest: U32, jitter: U32, lsr: U32,
                                     dlsr: U32)

  datatype FirRequest = FirRequest(ssrc: U32, sequence: Byte)

  datatype SdesItem = SdesItem(kind: Byte, text: seq<Byte>)

  datatype SdesChunk = SdesChunk(ssrc: U32, items: seq<SdesItem>)

  datatype RtcpPacket =
    | SenderReport(ssrc: U32, ntpMost: U32, ntpLeast: U32, timestamp: U32, packets: U32, octets: U32,
                   blocks: seq<ReportBlock>)
    | ReceiverReport(ssrc: U32, blocks: seq<ReportBlock>)
    | SourceDescription(chunks: seq<SdesChunk>)
    | Goodbye(sources: seq<U32>, reason: Option<seq<Byte>>)
    | PictureLossIndication(ssrc: U32, media: U32)
    | FullIntraRequest(ssrc: U32, requests: seq<FirRequest>)
    | GenericNack(ssrc: U32, media: U32, missing: seq<U16>)
    | RemoteBitrateEstimate(ssrc: U32, bitrate: U64, ssrcs: seq<U32>)
    | TransportWideCc(ssrc: U32, media: U32, base: U16, count: U16, reference: U32, feedbackCount: Byte,
                      payload: seq<Byte>)

  datatype RtcpError = InvalidRtcp | TooShort | Mismatch

  // ----- reading at an offset

  lemma At16(b: seq<Byte>, at: nat, v: U16)
    requires at + 2 <= |b| && b[at..at + 2] == Be16(v)
    ensures Get16(b, at) == v
  {
    assert b[at] == b[at..at + 2][0] && b[at + 1] == b[at..at + 2][1];
  }

  lemma At32(b: seq<Byte>, at: nat, v: U32)
    requires at + 4 <= |b| && b[at..at + 4] == Be32(v)
    ensures Get32(b, at) == v
  {
    var s := b[at..at + 4];
    assert b[at] == s[0] && b[at + 1] == s[1] && b[at + 2] == s[2] && b[at + 3] == s[3];
    Digits32(v);
  }

  lemma WordsAt(b: seq<Byte>, at: nat, ws: seq<U32>)
    requires at + 4 * |ws| <= |b| && b[at..at + 4 * |ws|] == Words(ws)
    ensures ReadWords(b, at, |ws|) == ws
  {
    var (before, after) := (b[..at], b[at + 4 * |ws|..]);
    assert b == before + Words(ws) + after;
    WordsRead(ws, before, after);
  }

  /** A part of a part. */
  lemma Within(b: seq<Byte>, at: nat, whole: seq<Byte>, before: seq<Byte>, mid: seq<Byte>, after: seq<Byte>)
    requires whole == before + mid + after && at + |whole| <= |b| && b[at..at + |whole|] == whole
    ensures b[at + |before|..at + |before| + |mid|] == mid
  {
    forall i | 0 <= i < |mid| ensures b[at + |before| + i] == mid[i] {
      assert b[at..at + |whole|][|before| + i] == mid[i];
    }
  }

  // ----- report blocks

  function Clamp(lost: int): (c: int)
    ensures -0x80_0000 <= c < 0x80_0000
  {
    if lost < -0x80_0000 then -0x80_0000 else if lost > 0x7F_FFFF then 0x7F_FFFF else lost
  }

  function LostBytes(lost: int): (b: seq<Byte>)
    ensures |b| == 3
  {
    var v := Clamp(lost) % 0x100_0000;
    [v / 0x1_0000, v / 0x100 % 0x100, v % 0x100]
  }

  /** 24 bits with sign. */
  function ReadLost(b: seq<Byte>, at: nat): (lost: int)
    requires at + 3 <= |b|
  {
    var v := 0x1_0000 * (b[at] as int) + 0x100 * (b[at + 1] as int) + b[at + 2];
    if v >= 0x80_0000 then v - 0x100_0000 else v
  }

  lemma LostRead(lost: int)
    ensures ReadLost(LostBytes(lost), 0) == Clamp(lost)
  {
    var v := Clamp(lost) % 0x100_0000;
    var h := v / 0x100;
    assert v == 0x100 * h + v % 0x100 && h == 0x100 * (h / 0x100) + h % 0x100 && h / 0x100 == v / 0x1_0000;
  }

  function BlockBytes(r: ReportBlock): (b: seq<Byte>)
    ensures |b| == 24
  {
    Be32(r.ssrc) + ([r.fraction] + LostBytes(r.lost)) + Words([r.highest, r.jitter, r.lsr, r.dlsr])
  }

  function ReadBlock(b: seq<Byte>, at: nat): (r: ReportBlock)
    requires at + 24 <= |b|
  {
    var ws := ReadWords(b, at + 8, 4);
    ReportBlock(Get32(b, at), b[at + 4], ReadLost(b, at + 5), ws[0], ws[1], ws[2], ws[3])
  }

  function Clamped(r: ReportBlock): (c: ReportBlock) { r.(lost := Clamp(r.lost)) }

  lemma LostAt(b: seq<Byte>, at: nat, fraction: Byte, lost: int)
    requires at + 4 <= |b| && b[at..at + 4] == [fraction] + LostBytes(lost)
    ensures b[at] == fraction && ReadLost(b, at + 1) == Clamp(lost)
  {
    var s := b[at..at + 4];
    assert b[at] == s[0] && b[at + 1] == s[1] && b[at + 2] == s[2] && b[at + 3] == s[3];
    LostRead(lost);
  }

  lemma BlockAt(b: seq<Byte>, at: nat, r: ReportBlock)
    requires at + 24 <= |b| && b[at..at + 24] == BlockBytes(r)
    ensures ReadBlock(b, at) == Clamped(r)
  {
    var (x, y, z) := (Be32(r.ssrc), [r.fraction] + LostBytes(r.lost), Words([r.highest, r.jitter, r.lsr, r.dlsr]));
    var whole := BlockBytes(r);
    Within(b, at, whole, [], x, y + z);
    Within(b, at, whole, x, y, z);
    Within(b, at, whole, x + y, z, []);
    At32(b, at, r.ssrc);
    LostAt(b, at + 4, r.fraction, r.lost);
    WordsAt(b, at + 8, [r.highest, r.jitter, r.lsr, r.dlsr]);
  }

  function BlocksBytes(rs: seq<ReportBlock>): (b: seq<Byte>)
    ensures |b| == 24 * |rs|
  {
    if rs == [] then [] else BlocksBytes(rs[..|rs| - 1]) + BlockBytes(rs[|rs| - 1])
  }

  function ReadBlocks(b: seq<Byte>, at: nat, n: nat): (rs: seq<ReportBlock>)
    requires at + 24 * n <= |b|
    ensures |rs| == n
  {
    if n == 0 then [] else ReadBlocks(b, at, n - 1) + [ReadBlock(b, at + 24 * (n - 1))]
  }

  function AllClamped(rs: seq<ReportBlock>): (cs: seq<ReportBlock>)
    ensures |cs| == |rs|
  {
    if rs == [] then [] else AllClamped(rs[..|rs| - 1]) + [Clamped(rs[|rs| - 1])]
  }

  lemma {:induction false} BlocksAt(b: seq<Byte>, at: nat, rs: seq<ReportBlock>, end: nat)
    requires at <= end <= |b| && b[at..end] == BlocksBytes(rs)
    ensures at + 24 * |rs| == end && ReadBlocks(b, at, |rs|) == AllClamped(rs)
  {
    if rs != [] {
      var m := |rs| - 1;
      var (before, r, mid) := (rs[..m], rs[m], at + 24 * m);
      FirstOf(b, at, end, BlocksBytes(before), BlockBytes(r));
      BlocksAt(b, at, before, mid);
      BlockAt(b, mid, r);
      ReadBlocksStep(b, at, m, mid, AllClamped(before), Clamped(r));
    }
  }

  lemma ReadBlocksStep(b: seq<Byte>, at: nat, m: nat, mid: nat, rs: seq<ReportBlock>, r: ReportBlock)
    requires mid == at + 24 * m && mid + 24 <= |b| && ReadBlocks(b, at, m) == rs && ReadBlock(b, mid) == r
    ensures ReadBlocks(b, at, m + 1) == rs + [r]
  {
  }

  // ----- sender and receiver reports

  function WithClamped(p: RtcpPacket): (r: RtcpPacket)
    requires p.SenderReport? || p.ReceiverReport?
  {
    if p.SenderReport? then
      SenderReport(p.ssrc, p.ntpMost, p.ntpLeast, p.timestamp, p.packets, p.octets, AllClamped(p.blocks))
    else ReceiverReport(p.ssrc, AllClamped(p.blocks))
  }

  function SenderBody(p: RtcpPacket): (b: seq<Byte>)
    requires p.SenderReport?
  {
    Words([p.ssrc, p.ntpMost, p.ntpLeast, p.timestamp, p.packets, p.octets]) + BlocksBytes(p.blocks)
  }

  function ParseSender(count: nat, b: seq<Byte>): (r: Result<RtcpPacket, RtcpError>)
  {
    if |b| < 24 then Err(InvalidRtcp)
    else if |b| < 24 + 24 * count then Err(Mismatch)
    else
      var w := ReadWords(b, 0, 6);
      Ok(SenderReport(w[0], w[1], w[2], w[3], w[4], w[5], ReadBlocks(b, 24, count)))
  }

  lemma SenderRead(p: RtcpPacket)
    requires p.SenderReport?
    ensures ParseSender(|p.blocks|, SenderBody(p)) == Ok(WithClamped(p))
  {
    var ws := [p.ssrc, p.ntpMost, p.ntpLeast, p.timestamp, p.packets, p.octets];
    var b := SenderBody(p);
    assert b[0..24] == Words(ws) && b[24..24 + 24 * |p.blocks|] == BlocksBytes(p.blocks);
    WordsAt(b, 0, ws);
    BlocksAt(b, 24, p.blocks, 24 + 24 * |p.blocks|);
  }

  function ReceiverBody(p: RtcpPacket): (b: seq<Byte>)
    requires p.ReceiverReport?
  {
    Be32(p.ssrc) + BlocksBytes(p.blocks)
  }

  function ParseReceiver(count: nat, b: seq<Byte>): (r: Result<RtcpPacket, RtcpError>)
  {
    if |b| < 4 then Err(InvalidRtcp)
    else if |b| < 4 + 24 * count then Err(Mismatch)
    else Ok(ReceiverReport(Get32(b, 0), ReadBlocks(b, 4, count)))
  }

  lemma ReceiverRead(p: RtcpPacket)
    requires p.ReceiverReport?
    ensures ParseReceiver(|p.blocks|, ReceiverBody(p)) == Ok(WithClamped(p))
  {
    var b := ReceiverBody(p);
    assert b[0..4] == Be32(p.ssrc) && b[4..4 + 24 * |p.blocks|] == BlocksBytes(p.blocks);
    At32(b, 0, p.ssrc);
    BlocksAt(b, 4, p.blocks, 4 + 24 * |p.blocks|);
  }

  // ----- source descriptions

  predicate ItemOk(i: SdesItem) { i.kind != 0 && |i.text| <= 255 }

  function ItemBytes(i: SdesItem): (b: seq<Byte>) { [i.kind, |i.text| % 256] + i.text }

  function ItemsBytes(items: seq<SdesItem>): (b: seq<Byte>)
  {
    if items == [] then [] else ItemBytes(items[0]) + ItemsBytes(items[1..])
  }

  predicate Even4(n: int) { n % 4 == 0 }

  /** How many bytes are missing to a multiple of four. */
  function Gap(n: nat): (g: nat)
    ensures g < 4 && Even4(n + g)
  {
    if n % 4 == 0 then 0 else 4 - n % 4
  }

  lemma Even4Sum(a: int, b: int)
    requires Even4(a)
    ensures Even4(a + b) <==> Even4(b)
  {
  }

  lemma GapNext(n: nat)
    ensures Gap(n) == 0 <==> Even4(n)
    ensures !Even4(n) ==> Gap(n + 1) == Gap(n) - 1
  {
  }

  lemma GapShift(a: nat, n: nat)
    requires Even4(a)
    ensures Gap(a + n) == Gap(n)
  {
  }

  function ChunkBytes(c: SdesChunk): (b: seq<Byte>)
    ensures Even4(|b|)
  {
    var list := Be32(c.ssrc) + ItemsBytes(c.items) + [0];
    list + Zeros(Gap(|list|))
  }

  function ChunksBytes(cs: seq<SdesChunk>): (b: seq<Byte>)
    ensures Even4(|b|)
  {
    if cs == [] then []
    else
      Even4Sum(|ChunkBytes(cs[0])|, |ChunksBytes(cs[1..])|);
      ChunkBytes(cs[0]) + ChunksBytes(cs[1..])
  }

  /** Skips the fill bytes after a list. */
  function Skip(b: seq<Byte>, at: nat): (next: nat)
    ensures next >= at
    decreases |b| - at
  {
    if Even4(at) || at >= |b| then at else Skip(b, at + 1)
  }

  datatype ReadItems = ReadItems(items: seq<SdesItem>, next: nat)

  function ItemsAt(b: seq<Byte>, at: nat): (r: Result<ReadItems, RtcpError>)
    ensures r.Ok? ==> r.value.next >= at
    decreases |b| - at
  {
    if at >= |b| then Ok(ReadItems([], at))
    else if b[at] == 0 then Ok(ReadItems([], Skip(b, at + 1)))
    else if at + 1 >= |b| then Err(TooShort)
    else
      var end := at + 2 + b[at + 1];
      if |b| < end then Err(TooShort)
      else
        match ItemsAt(b, end)
        case Err(e) => Err(e)
        case Ok(rest) => Ok(ReadItems([SdesItem(b[at], b[at + 2..end])] + rest.items, rest.next))
  }

  function ChunksAt(b: seq<Byte>, at: nat, n: nat): (r: Result<seq<SdesChunk>, RtcpError>)
    decreases n
  {
    if n == 0 then Ok([])
    else if |b| < at + 4 then Err(TooShort)
    else
      match ItemsAt(b, at + 4)
      case Err(e) => Err(e)
      case Ok(list) =>
        match ChunksAt(b, list.next, n - 1)
        case Err(e) => Err(e)
        case Ok(rest) => Ok([SdesChunk(Get32(b, at), list.items)] + rest)
  }

  /** Fill up to the next multiple of four. */
  lemma {:induction false} SkipFill(b: seq<Byte>, at: nat)
    requires at + Gap(at) <= |b|
    ensures Skip(b, at) == at + Gap(at)
    decreases Gap(at)
  {
    GapNext(at);
    if !Even4(at) { SkipFill(b, at + 1); }
  }

  lemma ItemAt(b: seq<Byte>, at: nat, i: SdesItem)
    requires ItemOk(i) && at + |ItemBytes(i)| <= |b| && b[at..at + |ItemBytes(i)|] == ItemBytes(i)
    ensures b[at] == i.kind && b[at + 1] == |i.text| && b[at + 2..at + 2 + |i.text|] == i.text
  {
    var s := b[at..at + |ItemBytes(i)|];
    assert b[at] == s[0] && b[at + 1] == s[1];
    assert b[at + 2..at + 2 + |i.text|] == s[2..];
  }

  /** The list ends at `end` with a zero byte and fill. */
  predicate Ends(b: seq<Byte>, end: nat) { end < |b| && b[end] == 0 && end + 1 + Gap(end + 1) <= |b| }

  lemma PrependItem(b: seq<Byte>, at: nat, items: seq<SdesItem>, mid: nat, next: nat)
    requires items != [] && ItemOk(items[0])
    requires mid == at + |ItemBytes(items[0])| <= |b| && b[at..mid] == ItemBytes(items[0])
    requires ItemsAt(b, mid) == Ok(ReadItems(items[1..], next))
    ensures ItemsAt(b, at) == Ok(ReadItems(items, next))
  {
    ItemAt(b, at, items[0]);
    assert [items[0]] + items[1..] == items;
  }

  ghost predicate ItemsOk(items: seq<SdesItem>) { forall n | 0 <= n < |items| :: ItemOk(items[n]) }

  /** The items stand at `at`, and the list ends at `end`. */
  ghost predicate ListHere(b: seq<Byte>, at: nat, items: seq<SdesItem>, end: nat)
  {
    ItemsOk(items) && at <= end && Ends(b, end) && b[at..end] == ItemsBytes(items)
  }

  lemma ListStep(b: seq<Byte>, at: nat, items: seq<SdesItem>, end: nat, mid: nat)
    requires items != [] && ListHere(b, at, items, end) && mid == at + |ItemBytes(items[0])|
    ensures mid <= |b| && b[at..mid] == ItemBytes(items[0]) && ItemOk(items[0]) && ListHere(b, mid, items[1..], end)
  {
    FirstOf(b, at, end, ItemBytes(items[0]), ItemsBytes(items[1..]));
  }

  lemma {:induction false} ListAt(b: seq<Byte>, at: nat, items: seq<SdesItem>, end: nat, next: nat)
    requires ListHere(b, at, items, end) && next == end + 1 + Gap(end + 1)
    ensures ItemsAt(b, at) == Ok(ReadItems(items, next))
    decreases |items|
  {
    if items == [] {
      ListEnd(b, end, next);
    } else {
      var mid := at + |ItemBytes(items[0])|;
      ListStep(b, at, items, end, mid);
      ListAt(b, mid, items[1..], end, next);
      PrependItem(b, at, items, mid, next);
    }
  }

  lemma ListEnd(b: seq<Byte>, end: nat, next: nat)
    requires Ends(b, end) && next == end + 1 + Gap(end + 1)
    ensures ItemsAt(b, end) == Ok(ReadItems([], next))
  {
    SkipFill(b, end + 1);
  }

  ghost predicate ChunkOk(c: SdesChunk) { ItemsOk(c.items) }

  /** The parts of a chunk: source, items, end mark, fill. */
  lemma ChunkParts(b: seq<Byte>, at: nat, c: SdesChunk, list: seq<Byte>, end: nat)
    requires Even4(at) && at + |ChunkBytes(c)| <= |b| && b[at..at + |ChunkBytes(c)|] == ChunkBytes(c)
    requires list == ItemsBytes(c.items) && end == at + 4 + |list|
    ensures at + |ChunkBytes(c)| == end + 1 + Gap(end + 1) && Ends(b, end)
    ensures b[at..at + 4] == Be32(c.ssrc) && b[at + 4..end] == list
  {
    var (ssrc, fill) := (Be32(c.ssrc), Zeros(Gap(4 + |list| + 1)));
    GapShift(at, 4 + |list| + 1);
    Assoc3(ssrc + list, [0], fill);
    Within(b, at, ChunkBytes(c), ssrc + list, [0], fill);
    assert b[end] == b[end..end + 1][0] == 0;
    Within(b, at, ChunkBytes(c), ssrc, list, [0] + fill);
    assert ChunkBytes(c) == [] + ssrc + (list + ([0] + fill));
    Within(b, at, ChunkBytes(c), [], ssrc, list + ([0] + fill));
  }

  lemma ChunkAt(b: seq<Byte>, at: nat, c: SdesChunk, next: nat)
    requires ChunkOk(c) && Even4(at) && at <= next <= |b| && b[at..next] == ChunkBytes(c)
    ensures at + 4 <= |b| && Get32(b, at) == c.ssrc && ItemsAt(b, at + 4) == Ok(ReadItems(c.items, next))
  {
    var list := ItemsBytes(c.items);
    var end := at + 4 + |list|;
    ChunkParts(b, at, c, list, end);
    At32(b, at, c.ssrc);
    ListAt(b, at + 4, c.items, end, next);
  }

  lemma PrependChunk(b: seq<Byte>, at: nat, cs: seq<SdesChunk>, next: nat)
    requires cs != [] && at + 4 <= |b| && Get32(b, at) == cs[0].ssrc
             && ItemsAt(b, at + 4) == Ok(ReadItems(cs[0].items, next))
    requires ChunksAt(b, next, |cs| - 1) == Ok(cs[1..])
    ensures ChunksAt(b, at, |cs|) == Ok(cs)
  {
    assert [SdesChunk(cs[0].ssrc, cs[0].items)] + cs[1..] == cs;
  }

  lemma {:induction false} SdesRead(b: seq<Byte>, at: nat, cs: seq<SdesChunk>, end: nat)
    requires forall n | 0 <= n < |cs| :: ChunkOk(cs[n])
    requires Even4(at) && at <= end <= |b| && b[at..end] == ChunksBytes(cs)
    ensures ChunksAt(b, at, |cs|) == Ok(cs)
    decreases |cs|
  {
    if cs != [] {
      var next := at + |ChunkBytes(cs[0])|;
      ChunkStep(b, at, cs, end, next);
      ChunkAt(b, at, cs[0], next);
      SdesRead(b, next, cs[1..], end);
      PrependChunk(b, at, cs, next);
    }
  }

  lemma ChunkStep(b: seq<Byte>, at: nat, cs: seq<SdesChunk>, end: nat, next: nat)
    requires cs != [] && Even4(at) && at <= end <= |b| && b[at..end] == ChunksBytes(cs)
    requires next == at + |ChunkBytes(cs[0])|
    ensures Even4(next) && next <= end && b[at..next] == ChunkBytes(cs[0]) && b[next..end] == ChunksBytes(cs[1..])
  {
    FirstOf(b, at, end, ChunkBytes(cs[0]), ChunksBytes(cs[1..]));
    Even4Sum(at, next - at);
  }

  // ----- goodbye

  function Cut(text: seq<Byte>): (t: seq<Byte>)
    ensures |t| <= 255 && t <= text
  {
    if |text| > 255 then text[..255] else text
  }

  function ReasonBytes(reason: Option<seq<Byte>>): (b: seq<Byte>)
  {
    if reason.None? then [] else [|Cut(reason.value)|] + Cut(reason.value)
  }

  function GoodbyeBody(p: RtcpPacket): (b: seq<Byte>)
    requires p.Goodbye?
  {
    Words(p.sources) + ReasonBytes(p.reason)
  }

  function ParseReason(b: seq<Byte>, at: nat): (r: Result<Option<seq<Byte>>, RtcpError>)
  {
    if at >= |b| then Ok(None)
    else if |b| < at + 1 + b[at] then Err(TooShort)
    else Ok(Some(b[at + 1..at + 1 + b[at]]))
  }

  function ParseGoodbye(count: nat, b: seq<Byte>): (r: Result<RtcpPacket, RtcpError>)
  {
    if |b| < 4 * count then Err(TooShort)
    else
      match ParseReason(b, 4 * count)
      case Err(e) => Err(e)
      case Ok(reason) => Ok(Goodbye(ReadWords(b, 0, count), reason))
  }

  function Fill(b: seq<Byte>): (r: seq<Byte>)
    ensures Even4(|r|) && |r| < |b| + 4
  {
    b + Zeros(Gap(|b|))
  }

  lemma NoFill(b: seq<Byte>)
    requires Even4(|b|)
    ensures Fill(b) == b
  {
    GapNext(|b|);
  }

  lemma ReasonAt(b: seq<Byte>, at: nat, reason: seq<Byte>)
    requires |reason| <= 255 && at + 1 + |reason| <= |b| && b[at..at + 1 + |reason|] == [|reason|] + reason
    ensures ParseReason(b, at) == Ok(Some(reason))
  {
    var s := b[at..at + 1 + |reason|];
    assert b[at] == s[0] && b[at + 1..at + 1 + |reason|] == s[1..] == reason;
  }

  lemma GoodbyeRead(p: RtcpPacket)
    requires p.Goodbye?
    ensures ParseGoodbye(|p.sources|, Fill(GoodbyeBody(p)))
            == Ok(Goodbye(p.sources, if p.reason.None? then None else Some(Cut(p.reason.value))))
  {
    var (ws, reason) := (Words(p.sources), ReasonBytes(p.reason));
    var fill := Zeros(Gap(|ws + reason|));
    var b := ws + reason + fill;
    var at := 4 * |p.sources|;
    assert b == Fill(GoodbyeBody(p));
    GoodbyeParts(b, ws, reason, fill);
    WordsAt(b, 0, p.sources);
    if p.reason.None? {
      NoReason(b, at, |p.sources|);
    } else {
      ReasonAt(b, at, Cut(p.reason.value));
    }
  }

  lemma NoReason(b: seq<Byte>, at: nat, n: nat)
    requires at == 4 * n && |b| == at + Gap(at)
    ensures ParseReason(b, at) == Ok(None)
  {
    Modular.Unique(at, 4, n, 0);
  }

  lemma GoodbyeParts(b: seq<Byte>, ws: seq<Byte>, reason: seq<Byte>, fill: seq<Byte>)
    requires b == ws + reason + fill
    ensures b[0..|ws|] == ws && b[|ws|..|ws| + |reason|] == reason
  {
  }

  // ----- payload feedback

  function ParsePli(b: seq<Byte>): (r: Result<RtcpPacket, RtcpError>)
  {
    if |b| < 8 then Err(InvalidRtcp) else Ok(PictureLossIndication(Get32(b, 0), Get32(b, 4)))
  }

  lemma PliRead(p: RtcpPacket)
    requires p.PictureLossIndication?
    ensures ParsePli(Be32(p.ssrc) + Be32(p.media)) == Ok(p)
  {
    var b := Be32(p.ssrc) + Be32(p.media);
    assert b[0..4] == Be32(p.ssrc) && b[4..8] == Be32(p.media);
    At32(b, 0, p.ssrc);
    At32(b, 4, p.media);
  }

  lemma TwoAndRest(b: seq<Byte>, x: seq<Byte>, y: seq<Byte>, rest: seq<Byte>)
    requires |x| == |y| == 4 && b == x + y + rest
    ensures b[0..4] == x && b[4..8] == y && b[8..|b|] == rest
  {
  }

  function RequestBytes(r: FirRequest): (b: seq<Byte>)
    ensures |b| == 8
  {
    Be32(r.ssrc) + [r.sequence, 0, 0, 0]
  }

  function RequestsBytes(rs: seq<FirRequest>): (b: seq<Byte>)
    ensures |b| == 8 * |rs|
  {
    if rs == [] then [] else RequestsBytes(rs[..|rs| - 1]) + RequestBytes(rs[|rs| - 1])
  }

  function FirBody(p: RtcpPacket): (b: seq<Byte>)
    requires p.FullIntraRequest?
  {
    Be32(p.ssrc) + Be32(0) + RequestsBytes(p.requests)
  }

  function ReadRequests(b: seq<Byte>, at: nat, n: nat): (rs: seq<FirRequest>)
    requires at + 8 * n <= |b|
    ensures |rs| == n
  {
    if n == 0 then []
    else ReadRequests(b, at, n - 1) + [FirRequest(Get32(b, at + 8 * (n - 1)), b[at + 8 * (n - 1) + 4])]
  }

  function ParseFir(b: seq<Byte>): (r: Result<RtcpPacket, RtcpError>)
  {
    if |b| < 8 then Err(InvalidRtcp) else Ok(FullIntraRequest(Get32(b, 0), ReadRequests(b, 8, (|b| - 8) / 8)))
  }

  lemma RequestAt(b: seq<Byte>, at: nat, r: FirRequest)
    requires at + 8 <= |b| && b[at..at + 8] == RequestBytes(r)
    ensures FirRequest(Get32(b, at), b[at + 4]) == r
  {
    assert b[at + 4] == b[at..at + 8][4];
    assert b[at..at + 4] == b[at..at + 8][..4] == Be32(r.ssrc);
    At32(b, at, r.ssrc);
  }

  lemma {:induction false} RequestsAt(b: seq<Byte>, at: nat, rs: seq<FirRequest>, end: nat)
    requires at <= end <= |b| && b[at..end] == RequestsBytes(rs)
    ensures at + 8 * |rs| == end && ReadRequests(b, at, |rs|) == rs
  {
    if rs != [] {
      var m := |rs| - 1;
      var (before, r, mid) := (rs[..m], rs[m], at + 8 * m);
      FirstOf(b, at, end, RequestsBytes(before), RequestBytes(r));
      RequestsAt(b, at, before, mid);
      RequestAt(b, mid, r);
      ReadRequestsStep(b, at, m, mid, before, r);
      Snoc(rs);
    }
  }

  lemma ReadRequestsStep(b: seq<Byte>, at: nat, m: nat, mid: nat, rs: seq<FirRequest>, r: FirRequest)
    requires mid == at + 8 * m && mid + 8 <= |b|
    requires ReadRequests(b, at, m) == rs && FirRequest(Get32(b, mid), b[mid + 4]) == r
    ensures ReadRequests(b, at, m + 1) == rs + [r]
  {
  }

  lemma FirRead(p: RtcpPacket)
    requires p.FullIntraRequest?
    ensures ParseFir(FirBody(p)) == Ok(p)
  {
    var b := FirBody(p);
    TwoAndRest(b, Be32(p.ssrc), Be32(0), RequestsBytes(p.requests));
    At32(b, 0, p.ssrc);
    RequestsAt(b, 8, p.requests, |b|);
    Modular.Unique(|b| - 8, 8, |p.requests|, 0);
  }

  // ----- NACK

  function PairBytes(p: Nack.Pair): (b: seq<Byte>)
    ensures |b| == 4
  {
    Be16(p.pid) + Be16(p.blp)
  }

  function PairsBytes(ps: seq<Nack.Pair>): (b: seq<Byte>)
    ensures |b| == 4 * |ps|
  {
    if ps == [] then [] else PairsBytes(ps[..|ps| - 1]) + PairBytes(ps[|ps| - 1])
  }

  function NackBody(p: RtcpPacket): (b: seq<Byte>)
    requires p.GenericNack?
  {
    Nack.SortedIncreasing(p.missing);
    Be32(p.ssrc) + Be32(p.media) + PairsBytes(Nack.Pack(Nack.Sorted(p.missing)))
  }

  function ReadPairs(b: seq<Byte>, at: nat, n: nat): (ps: seq<Nack.Pair>)
    requires at + 4 * n <= |b|
    ensures |ps| == n
  {
    if n == 0 then []
    else ReadPairs(b, at, n - 1) + [Nack.Pair(Get16(b, at + 4 * (n - 1)), Get16(b, at + 4 * (n - 1) + 2))]
  }

  function ParseNack(b: seq<Byte>): (r: Result<RtcpPacket, RtcpError>)
  {
    if |b| < 8 then Err(InvalidRtcp)
    else Ok(GenericNack(Get32(b, 0), Get32(b, 4), Nack.Expand(ReadPairs(b, 8, (|b| - 8) / 4))))
  }

  lemma PairAt(b: seq<Byte>, at: nat, p: Nack.Pair)
    requires at + 4 <= |b| && b[at..at + 4] == PairBytes(p)
    ensures Nack.Pair(Get16(b, at), Get16(b, at + 2)) == p
  {
    FirstOf(b, at, at + 4, Be16(p.pid), Be16(p.blp));
    At16(b, at, p.pid);
    At16(b, at + 2, p.blp);
  }

  lemma {:induction false} PairsAt(b: seq<Byte>, at: nat, ps: seq<Nack.Pair>, end: nat)
    requires at <= end <= |b| && b[at..end] == PairsBytes(ps)
    ensures at + 4 * |ps| == end && ReadPairs(b, at, |ps|) == ps
  {
    if ps != [] {
      var m := |ps| - 1;
      var (before, p, mid) := (ps[..m], ps[m], at + 4 * m);
      FirstOf(b, at, end, PairsBytes(before), PairBytes(p));
      PairsAt(b, at, before, mid);
      PairAt(b, mid, p);
      ReadPairsStep(b, at, m, mid, before, p);
      Snoc(ps);
    }
  }

  lemma ReadPairsStep(b: seq<Byte>, at: nat, m: nat, mid: nat, ps: seq<Nack.Pair>, p: Nack.Pair)
    requires mid == at + 4 * m && mid + 4 <= |b|
    requires ReadPairs(b, at, m) == ps && Nack.Pair(Get16(b, mid), Get16(b, mid + 2)) == p
    ensures ReadPairs(b, at, m + 1) == ps + [p]
  {
  }

  lemma NackOf(b: seq<Byte>, ssrc: U32, media: U32, pairs: seq<Nack.Pair>)
    requires |b| == 8 + 4 * |pairs| && Get32(b, 0) == ssrc && Get32(b, 4) == media && ReadPairs(b, 8, |pairs|) == pairs
    ensures ParseNack(b) == Ok(GenericNack(ssrc, media, Nack.Expand(pairs)))
  {
    Modular.Unique(|b| - 8, 4, |pairs|, 0);
  }

  lemma NackPairsRead(ssrc: U32, media: U32, pairs: seq<Nack.Pair>)
    ensures ParseNack(Be32(ssrc) + Be32(media) + PairsBytes(pairs)) == Ok(GenericNack(ssrc, media, Nack.Expand(pairs)))
  {
    var b := Be32(ssrc) + Be32(media) + PairsBytes(pairs);
    TwoAndRest(b, Be32(ssrc), Be32(media), PairsBytes(pairs));
    At32(b, 0, ssrc);
    At32(b, 4, media);
    PairsAt(b, 8, pairs, |b|);
    NackOf(b, ssrc, media, pairs);
  }

  lemma NackRead(p: RtcpPacket)
    requires p.GenericNack?
    ensures ParseNack(NackBody(p)) == Ok(GenericNack(p.ssrc, p.media, Nack.Sorted(p.missing)))
  {
    Nack.PackIsExact(p.missing);
    NackPairsRead(p.ssrc, p.media, Nack.Pack(Nack.Sorted(p.missing)));
  }

  // ----- REMB

  function Exponent(v: nat): (e: nat) { if v <= 0x3FFFF then 0 else 1 + Exponent(v / 2) }

  function Mantissa(v: nat): (m: nat)
    ensures m <= 0x3FFFF
  {
    if v <= 0x3FFFF then v else Mantissa(v / 2)
  }

  /** The bitrate that 18 bits of mantissa can carry. */
  function Floor(v: nat): (f: nat) { Mantissa(v) * Modular.Pow2(Exponent(v)) }

  /** Rounded down by less than one unit of the exponent; the mantissa then fills its 18 bits. */
  lemma {:induction false} FloorBounds(v: nat)
    ensures Floor(v) <= v < Floor(v) + Modular.Pow2(Exponent(v))
    ensures v > 0x3FFFF ==> Mantissa(v) >= 0x20000
  {
    if v > 0x3FFFF {
      FloorBounds(v / 2);
      var (m, p) := (Mantissa(v / 2), Modular.Pow2(Exponent(v / 2)));
      assert Floor(v) == 2 * Floor(v / 2) by { assert m * (2 * p) == 2 * (m * p); }
    }
  }

  /** Exact below 2^18, and within one part in 2^17 above. */
  lemma BitratePrecision(v: nat)
    ensures v < 0x4_0000 ==> Floor(v) == v
    ensures Floor(v) <= v && (v > 0 ==> (v - Floor(v)) * 0x2_0000 < v)
  {
    FloorBounds(v);
    if v > 0x3FFFF {
      RelativeError(v, Floor(v), Mantissa(v), Modular.Pow2(Exponent(v)));
    } else {
      assert Modular.Pow2(0) == 1;
    }
  }

  lemma RelativeError(v: nat, f: nat, m: nat, p: nat)
    requires f == m * p && f <= v < f + p && m >= 0x2_0000
    ensures (v - f) * 0x2_0000 < v
  {
    Modular.Monotone(p, 0x2_0000, m);
  }

  lemma {:induction false} ExponentFits(v: nat, n: nat)
    requires v < 0x4_0000 * Modular.Pow2(n)
    ensures Exponent(v) <= n
  {
    if v > 0x3FFFF {
      assert n > 0 by { assert Modular.Pow2(0) == 1; }
      ExponentFits(v / 2, n - 1);
    }
  }

  lemma SixtyFourBits(v: U64)
    ensures Exponent(v) <= 46
  {
    Nack.SixteenBits();
    assert Modular.Pow2(20) == 16 * Modular.Pow2(16);
    Modular.Pow2Sum(20, 20);
    Modular.Pow2Sum(40, 6);
    assert Modular.Pow2(6) == 64;
    ExponentFits(v, 46);
  }

  function BitrateBytes(v: U64): (b: seq<Byte>)
    ensures |b| == 3
  {
    var (e, m) := (Exponent(v), Mantissa(v));
    [4 * (e % 64) + m / 0x1_0000, m / 0x100 % 0x100, m % 0x100]
  }

  /** `mantissa << exponent` on 64 bits. */
  function ReadBitrate(b: seq<Byte>, at: nat): (v: U64)
    requires at + 3 <= |b|
  {
    var m := 0x1_0000 * ((b[at] as int) % 4) + 0x100 * (b[at + 1] as int) + b[at + 2];
    m * Modular.Pow2(b[at] / 4) % 0x1_0000_0000_0000_0000
  }

  lemma BitrateAt(b: seq<Byte>, at: nat, v: U64)
    requires at + 3 <= |b| && b[at..at + 3] == BitrateBytes(v)
    ensures ReadBitrate(b, at) == Floor(v)
  {
    var (e, m) := (Exponent(v), Mantissa(v));
    var s := b[at..at + 3];
    assert b[at] == s[0] && b[at + 1] == s[1] && b[at + 2] == s[2];
    SixtyFourBits(v);
    MantissaDigits(m);
    assert b[at] == 4 * e + m / 0x1_0000 && b[at] / 4 == e && b[at] % 4 == m / 0x1_0000;
    FloorBounds(v);
  }

  lemma MantissaDigits(m: nat)
    requires m <= 0x3FFFF
    ensures m / 0x1_0000 < 4 && m == 0x1_0000 * (m / 0x1_0000) + 0x100 * (m / 0x100 % 0x100) + m % 0x100
  {
    var h := m / 0x100;
    assert m == 0x100 * h + m % 0x100 && h == 0x100 * (h / 0x100) + h % 0x100 && h / 0x100 == m / 0x1_0000;
  }

  /** The normalising loop. */
  method Normalise(bitrate: U64) returns (exponent: nat, mantissa: nat)
    ensures exponent == Exponent(bitrate) && mantissa == Mantissa(bitrate)
  {
    exponent, mantissa := 0, bitrate;
    while mantissa > 0x3FFFF
      invariant exponent + Exponent(mantissa) == Exponent(bitrate) && Mantissa(mantissa) == Mantissa(bitrate)
      decreases mantissa
    {
      mantissa := mantissa / 2;
      exponent := exponent + 1;
    }
  }

  const REMB: seq<Byte> := [0x52, 0x45, 0x4D, 0x42]

  function RembBody(p: RtcpPacket): (b: seq<Byte>)
    requires p.RemoteBitrateEstimate? && |p.ssrcs| <= 255
  {
    Be32(p.ssrc) + Be32(0) + REMB + [|p.ssrcs|] + BitrateBytes(p.bitrate) + Words(p.ssrcs)
  }

  function ParseRemb(b: seq<Byte>): (r: Result<RtcpPacket, RtcpError>)
  {
    if |b| < 16 || b[8..12] != REMB then Err(InvalidRtcp)
    else if |b| < 16 + 4 * (b[12] as int) then Err(Mismatch)
    else Ok(RemoteBitrateEstimate(Get32(b, 0), ReadBitrate(b, 13), ReadWords(b, 16, b[12])))
  }

  lemma RembRead(p: RtcpPacket)
    requires p.RemoteBitrateEstimate? && |p.ssrcs| <= 255
    ensures Floor(p.bitrate) <= p.bitrate
            && ParseRemb(RembBody(p)) == Ok(RemoteBitrateEstimate(p.ssrc, Floor(p.bitrate), p.ssrcs))
  {
    var b := RembBody(p);
    FloorBounds(p.bitrate);
    RembParts(b, Be32(p.ssrc), BitrateBytes(p.bitrate), Words(p.ssrcs), |p.ssrcs|);
    At32(b, 0, p.ssrc);
    BitrateAt(b, 13, p.bitrate);
    WordsAt(b, 16, p.ssrcs);
  }

  lemma RembParts(b: seq<Byte>, ssrc: seq<Byte>, bitrate: seq<Byte>, words: seq<Byte>, n: Byte)
    requires |ssrc| == 4 && |bitrate| == 3 && b == ssrc + Be32(0) + REMB + [n] + bitrate + words
    ensures b[0..4] == ssrc && b[8..12] == REMB && b[12] == n && b[13..16] == bitrate && b[16..16 + |words|] == words
  {
  }

  // ----- transport-wide congestion control

  function ReferenceBytes(v: U32): (b: seq<Byte>)
    ensures |b| == 3
  {
    [v / 0x1_0000 % 0x100, v / 0x100 % 0x100, v % 0x100]
  }

  function TwccHead(p: RtcpPacket): (b: seq<Byte>)
    requires p.TransportWideCc?
    ensures |b| == 16
  {
    Be32(p.ssrc) + Be32(p.media) + Be16(p.base) + Be16(p.count) + (ReferenceBytes(p.reference) + [p.feedbackCount])
  }

  function TwccBody(p: RtcpPacket): (b: seq<Byte>)
    requires p.TransportWideCc?
  {
    TwccHead(p) + p.payload
  }

  function ParseTwcc(b: seq<Byte>): (r: Result<RtcpPacket, RtcpError>)
  {
    if |b| < 16 then Err(InvalidRtcp)
    else
      var reference := 0x1_0000 * (b[12] as int) + 0x100 * (b[13] as int) + b[14];
      Ok(TransportWideCc(Get32(b, 0), Get32(b, 4), Get16(b, 8), Get16(b, 10), reference, b[15], b[16..]))
  }

  lemma ReferenceAt(b: seq<Byte>, at: nat, v: U32, n: Byte)
    requires at + 4 <= |b| && b[at..at + 4] == ReferenceBytes(v) + [n]
    ensures 0x1_0000 * (b[at] as int) + 0x100 * (b[at + 1] as int) + b[at + 2] == v % 0x100_0000 && b[at + 3] == n
  {
    var s := b[at..at + 4];
    assert b[at] == s[0] && b[at + 1] == s[1] && b[at + 2] == s[2] && b[at + 3] == s[3];
    Digits32(v);
  }

  lemma TwccRead(p: RtcpPacket, fill: seq<Byte>)
    requires p.TransportWideCc?
    ensures ParseTwcc(TwccBody(p) + fill)
            == Ok(TransportWideCc(p.ssrc, p.media, p.base, p.count, p.reference % 0x100_0000, p.feedbackCount,
              p.payload + fill))
  {
    var b := TwccBody(p) + fill;
    TwccParts(b, Be32(p.ssrc), Be32(p.media), Be16(p.base), Be16(p.count),
      ReferenceBytes(p.reference) + [p.feedbackCount], p.payload, fill);
    At32(b, 0, p.ssrc);
    At32(b, 4, p.media);
    At16(b, 8, p.base);
    At16(b, 10, p.count);
    ReferenceAt(b, 12, p.reference, p.feedbackCount);
  }

  lemma TwccParts(b: seq<Byte>, s: seq<Byte>, m: seq<Byte>, x: seq<Byte>, y: seq<Byte>, z: seq<Byte>,
                  payload: seq<Byte>, fill: seq<Byte>)
    requires |s| == |m| == |z| == 4 && |x| == |y| == 2 && b == s + m + x + y + z + payload + fill
    ensures b[0..4] == s && b[4..8] == m && b[8..10] == x && b[10..12] == y && b[12..16] == z
            && b[16..] == payload + fill
  {
  }
}

/** The loops of the RTCP builders and parsers (src/rtp.rs), each computing the function that `Rtcp` reasons about. */
module RtcpCode {
  import opened Wrappers
  import opened Bytes
  import opened Rtp
  import opened Rtcp
  import opened RtcpCompound
  import Nack

  // ----- reports

  method BuildBlocks(head: seq<Byte>, blocks: seq<ReportBlock>) returns (body: seq<Byte>)
    ensures body == head + BlocksBytes(blocks)
  {
    body := head;
    for i := 0 to |blocks|
      invariant body == head + BlocksBytes(blocks[..i])
    {
      assert blocks[..i + 1][..i] == blocks[..i];
      Assoc3(head, BlocksBytes(blocks[..i]), BlockBytes(blocks[i]));
      body := body + BlockBytes(blocks[i]);
    }
    assert blocks[..|blocks|] == blocks;
  }

  /** The report block loop: it fails as soon as a block is missing. */
  method ParseBlocks(body: seq<Byte>, start: nat, count: nat) returns (r: Result<seq<ReportBlock>, RtcpError>)
    requires start <= |body|
    ensures r == if |body| < start + 24 * count then Err(Mismatch) else Ok(ReadBlocks(body, start, count))
  {
    var offset := start;
    var blocks: seq<ReportBlock> := [];
    for i := 0 to count
      invariant offset == start + 24 * i <= |body| && blocks == ReadBlocks(body, start, i)
    {
      if |body| < offset + 24 {
        return Err(Mismatch);
      }
      blocks := blocks + [ReadBlock(body, offset)];
      offset := offset + 24;
    }
    r := Ok(blocks);
  }

  // ----- source descriptions

  method BuildItems(head: seq<Byte>, items: seq<SdesItem>) returns (body: seq<Byte>)
    ensures body == head + ItemsBytes(items)
  {
    body := head;
    ghost var rest := ItemsBytes(items);
    assert items[0..] == items;
    for i := 0 to |items|
      invariant rest == ItemsBytes(items[i..]) && body + rest == head + ItemsBytes(items)
    {
      var item := items[i];
      ghost var more := ItemsBytes(items[i + 1..]);
      assert items[i..][1..] == items[i + 1..];
      Assoc3(body, ItemBytes(item), more);
      body := body + ([item.kind, |item.text| % 256] + item.text);
      rest := more;
    }
    assert body + [] == body;
  }

  /** Fills a buffer up to a multiple of four. */
  method PadTo4(body: seq<Byte>) returns (r: seq<Byte>)
    ensures r == Fill(body)
  {
    r := body;
    ghost var n: nat := 0;
    assert body + Zeros(0) == body;
    while |r| % 4 != 0
      invariant n <= Gap(|body|) && r == body + Zeros(n)
      decreases Gap(|body|) - n
    {
      GapReached(|body|, n);
      assert Zeros(n) + [0] == Zeros(n + 1);
      r, n := r + [0], n + 1;
    }
    GapReached(|body|, n);
  }

  lemma GapReached(size: nat, n: nat)
    requires n <= Gap(size)
    ensures (size + n) % 4 == 0 <==> n == Gap(size)
  {
  }

  method BuildSdesBody(chunks: seq<SdesChunk>) returns (body: seq<Byte>)
    ensures body == ChunksBytes(chunks)
  {
    body := [];
    ghost var rest := ChunksBytes(chunks);
    assert chunks[0..] == chunks;
    for i := 0 to |chunks|
      invariant rest == ChunksBytes(chunks[i..]) && Even4(|body|) && body + rest == ChunksBytes(chunks)
    {
      var c := chunks[i];
      ghost var before, more := body, ChunksBytes(chunks[i + 1..]);
      assert chunks[i..][1..] == chunks[i + 1..];
      body := BuildChunk(body, c);
      Assoc3(before, ChunkBytes(c), more);
      rest := more;
    }
    assert body + [] == body;
  }

  method BuildChunk(start: seq<Byte>, c: SdesChunk) returns (body: seq<Byte>)
    requires Even4(|start|)
    ensures body == start + ChunkBytes(c) && Even4(|body|)
  {
    body := start + Be32(c.ssrc);
    body := BuildItems(body, c.items);
    body := body + [0];
    ghost var list := Be32(c.ssrc) + ItemsBytes(c.items) + [0];
    assert body == start + list;
    body := PadTo4(body);
    GapShift(|start|, |list|);
    Assoc3(start, list, Zeros(Gap(|list|)));
  }

  function PrependItems(items: seq<SdesItem>, r: Result<ReadItems, RtcpError>): (o: Result<ReadItems, RtcpError>)
  {
    if r.Ok? then Ok(ReadItems(items + r.value.items, r.value.next)) else r
  }

  method SkipPadding(body: seq<Byte>, start: nat) returns (offset: nat)
    ensures offset == Skip(body, start)
  {
    offset := start;
    while offset % 4 != 0
      invariant Skip(body, offset) == Skip(body, start)
      decreases |body| - offset
    {
      if offset >= |body| {
        break;
      }
      offset := offset + 1;
    }
  }

  method ParseItems(body: seq<Byte>, start: nat) returns (r: Result<ReadItems, RtcpError>)
    ensures r == ItemsAt(body, start)
  {
    var items: seq<SdesItem> := [];
    var offset := start;
    ghost var all := ItemsAt(body, start);
    assert all.Ok? ==> [] + all.value.items == all.value.items;
    while offset < |body|
      invariant all == PrependItems(items, ItemsAt(body, offset))
      decreases |body| - offset
    {
      var kind := body[offset];
      if kind == 0 {
        var next := SkipPadding(body, offset + 1);
        assert items + [] == items;
        return Ok(ReadItems(items, next));
      }
      if offset + 1 >= |body| {
        return Err(TooShort);
      }
      var len: nat := body[offset + 1];
      var end := offset + 2 + len;
      if |body| < end {
        return Err(TooShort);
      }
      var item := SdesItem(kind, body[offset + 2..end]);
      StepItem(body, offset, items, item, end);
      items := items + [item];
      offset := end;
    }
    assert items + [] == items;
    r := Ok(ReadItems(items, offset));
  }

  lemma StepItem(body: seq<Byte>, at: nat, items: seq<SdesItem>, item: SdesItem, end: nat)
    requires at + 1 < |body| && body[at] != 0 && end == at + 2 + body[at + 1] <= |body|
    requires item == SdesItem(body[at], body[at + 2..end])
    ensures PrependItems(items, ItemsAt(body, at)) == PrependItems(items + [item], ItemsAt(body, end))
  {
    var rest := ItemsAt(body, end);
    if rest.Ok? { Assoc3(items, [item], rest.value.items); }
  }

  function PrependChunks(chunks: seq<SdesChunk>, r: Result<seq<SdesChunk>, RtcpError>)
    : (o: Result<seq<SdesChunk>, RtcpError>)
  {
    if r.Ok? then Ok(chunks + r.value) else r
  }

  method ParseSdes(count: nat, body: seq<Byte>) returns (r: Result<seq<SdesChunk>, RtcpError>)
    ensures r == ChunksAt(body, 0, count)
  {
    var chunks: seq<SdesChunk> := [];
    var offset: nat := 0;
    ghost var all := ChunksAt(body, 0, count);
    assert all.Ok? ==> [] + all.value == all.value;
    for i := 0 to count
      invariant all == PrependChunks(chunks, ChunksAt(body, offset, count - i))
    {
      if |body| < offset + 4 {
        return Err(TooShort);
      }
      var ssrc := Get32(body, offset);
      var list := ParseItems(body, offset + 4);
      if list.Err? {
        return Err(list.error);
      }
      var chunk := SdesChunk(ssrc, list.value.items);
      ghost var rest := ChunksAt(body, list.value.next, count - i - 1);
      if rest.Ok? { Assoc3(chunks, [chunk], rest.value); }
      chunks := chunks + [chunk];
      offset := list.value.next;
    }
    assert chunks + [] == chunks;
    r := Ok(chunks);
  }

  // ----- goodbye

  method BuildWords(head: seq<Byte>, ws: seq<U32>) returns (body: seq<Byte>)
    ensures body == head + Words(ws)
  {
    body := head;
    for i := 0 to |ws|
      invariant body == head + Words(ws[..i])
    {
      assert ws[..i + 1][..i] == ws[..i];
      Assoc3(head, Words(ws[..i]), Be32(ws[i]));
      body := body + Be32(ws[i]);
    }
    assert ws[..|ws|] == ws;
  }

  /** The SSRC loops of goodbye and REMB packets. */
  method ParseWords(body: seq<Byte>, start: nat, count: nat, short: RtcpError) returns (r: Result<seq<U32>, RtcpError>)
    requires start <= |body|
    ensures r == if |body| < start + 4 * count then Err(short) else Ok(ReadWords(body, start, count))
  {
    var offset := start;
    var ws: seq<U32> := [];
    for i := 0 to count
      invariant offset == start + 4 * i <= |body| && ws == ReadWords(body, start, i)
    {
      if |body| < offset + 4 {
        return Err(short);
      }
      ws := ws + [Get32(body, offset)];
      offset := offset + 4;
    }
    r := Ok(ws);
  }

  method ParseBye(count: nat, body: seq<Byte>) returns (r: Result<RtcpPacket, RtcpError>)
    ensures r == ParseGoodbye(count, body)
  {
    var sources := ParseWords(body, 0, count, TooShort);
    if sources.Err? {
      return Err(sources.error);
    }
    var offset := 4 * count;
    var reason: Option<seq<Byte>> := None;
    if offset < |body| {
      var len: nat := body[offset];
      offset := offset + 1;
      if |body| < offset + len {
        return Err(TooShort);
      }
      reason := Some(body[offset..offset + len]);
    }
    r := Ok(Goodbye(sources.value, reason));
  }

  // ----- feedback

  method BuildRequests(head: seq<Byte>, requests: seq<FirRequest>) returns (body: seq<Byte>)
    ensures body == head + RequestsBytes(requests)
  {
    body := head;
    for i := 0 to |requests|
      invariant body == head + RequestsBytes(requests[..i])
    {
      assert requests[..i + 1][..i] == requests[..i];
      Assoc3(head, RequestsBytes(requests[..i]), RequestBytes(requests[i]));
      body := body + (Be32(requests[i].ssrc) + [requests[i].sequence, 0, 0, 0]);
    }
    assert requests[..|requests|] == requests;
  }

  method ParseFirBody(body: seq<Byte>) returns (r: Result<RtcpPacket, RtcpError>)
    ensures r == ParseFir(body)
  {
    if |body| < 8 {
      return Err(InvalidRtcp);
    }
    var offset: nat := 8;
    var requests: seq<FirRequest> := [];
    while offset + 8 <= |body|
      invariant offset == 8 + 8 * |requests| <= |body| && requests == ReadRequests(body, 8, |requests|)
    {
      requests := requests + [FirRequest(Get32(body, offset), body[offset + 4])];
      offset := offset + 8;
    }
    assert (|body| - 8) / 8 == |requests|;
    r := Ok(FullIntraRequest(Get32(body, 0), requests));
  }

  method BuildPairs(head: seq<Byte>, pairs: seq<Nack.Pair>) returns (body: seq<Byte>)
    ensures body == head + PairsBytes(pairs)
  {
    body := head;
    for i := 0 to |pairs|
      invariant body == head + PairsBytes(pairs[..i])
    {
      assert pairs[..i + 1][..i] == pairs[..i];
      Assoc3(head, PairsBytes(pairs[..i]), PairBytes(pairs[i]));
      body := body + (Be16(pairs[i].pid) + Be16(pairs[i].blp));
    }
    assert pairs[..|pairs|] == pairs;
  }

  method ParseNackBody(body: seq<Byte>) returns (r: Result<RtcpPacket, RtcpError>)
    ensures r == ParseNack(body)
  {
    if |body| < 8 {
      return Err(InvalidRtcp);
    }
    var missing: seq<U16> := [];
    var offset: nat := 8;
    ghost var n: nat := 0;
    while offset + 4 <= |body|
      invariant offset == 8 + 4 * n <= |body| && missing == Nack.Expand(ReadPairs(body, 8, n))
    {
      var pair := Nack.Pair(Get16(body, offset), Get16(body, offset + 2));
      var one := Nack.ExpandOne(pair);
      assert ReadPairs(body, 8, n + 1)[..n] == ReadPairs(body, 8, n);
      missing := missing + one;
      offset, n := offset + 4, n + 1;
    }
    assert (|body| - 8) / 4 == n;
    r := Ok(GenericNack(Get32(body, 0), Get32(body, 4), missing));
  }

  method ParseRembBody(body: seq<Byte>) returns (r: Result<RtcpPacket, RtcpError>)
    ensures r == ParseRemb(body)
  {
    if |body| < 16 || body[8..12] != REMB {
      return Err(InvalidRtcp);
    }
    var ssrcs := ParseWords(body, 16, body[12], Mismatch);
    if ssrcs.Err? {
      return Err(ssrcs.error);
    }
    r := Ok(RemoteBitrateEstimate(Get32(body, 0), ReadBitrate(body, 13), ssrcs.value));
  }

  // ----- compound packets

  method BuildRembBody(p: RtcpPacket) returns (r: Result<seq<Byte>, RtcpError>)
    requires p.RemoteBitrateEstimate?
    ensures r == BodyOf(p)
  {
    if |p.ssrcs| > 255 {
      return Err(InvalidRtcp);
    }
    var exponent, mantissa := Normalise(p.bitrate);
    MantissaDigits(mantissa);
    var body := Be32(p.ssrc) + Be32(0) + REMB + [|p.ssrcs|];
    body := body + [4 * (exponent % 64) + mantissa / 0x1_0000, mantissa / 0x100 % 0x100, mantissa % 0x100];
    body := BuildWords(body, p.ssrcs);
    r := Ok(body);
  }

  method BuildBody(p: RtcpPacket) returns (r: Result<seq<Byte>, RtcpError>)
    ensures r == BodyOf(p)
  {
    match p
    case SenderReport(ssrc, most, least, timestamp, packets, octets, blocks) =>
      var body := BuildBlocks(Words([ssrc, most, least, timestamp, packets, octets]), blocks);
      r := Ok(body);
    case ReceiverReport(ssrc, blocks) =>
      var body := BuildBlocks(Be32(ssrc), blocks);
      r := Ok(body);
    case SourceDescription(chunks) =>
      var body := BuildSdesBody(chunks);
      r := Ok(body);
    case Goodbye(sources, reason) =>
      var body := BuildWords([], sources);
      assert body == Words(sources);
      if reason.Some? {
        var len := if |reason.value| < 255 then |reason.value| else 255;
        assert reason.value[..len] == Cut(reason.value);
        body := body + ([len] + reason.value[..len]);
      } else {
        assert body + [] == body;
      }
      r := Ok(body);
    case GenericNack(ssrc, media, missing) =>
      if missing == [] {
        return Err(InvalidRtcp);
      }
      var pairs := Nack.PackNackPairs(missing);
      var body := BuildPairs(Be32(ssrc) + Be32(media), pairs);
      r := Ok(body);
    case TransportWideCc(_, _, _, _, _, _, _) => r := Ok(TwccBody(p));
    case PictureLossIndication(ssrc, media) => r := Ok(Be32(ssrc) + Be32(media));
    case FullIntraRequest(ssrc, requests) =>
      var body := BuildRequests(Be32(ssrc) + Be32(0), requests);
      r := Ok(body);
    case RemoteBitrateEstimate(_, _, _) => r := BuildRembBody(p);
  }

  method WriteRtcpPacket(out: seq<Byte>, fmt: Byte, kind: Byte, body: seq<Byte>) returns (r: seq<Byte>)
    ensures r == out + Frame(fmt, kind, body)
  {
    var padded := PadTo4(body);
    var length: U16 := ((|padded| + 4) / 4 - 1) % 0x1_0000;
    assert length == |padded| / 4 % 0x1_0000;
    r := out + [0x80 + fmt % 32, kind];
    r := r + Be16(length);
    r := r + padded;
    assert r == out + ([0x80 + fmt % 32, kind] + Be16(length) + padded);
  }

  method MarshalRtcpPackets(packets: seq<RtcpPacket>) returns (r: Result<seq<Byte>, RtcpError>)
    ensures r == MarshalAll(packets)
  {
    var out: seq<Byte> := [];
    var i: nat := 0;
    while i < |packets|
      invariant i <= |packets| && MarshalAll(packets[..i]) == Ok(out)
    {
      var body := BuildBody(packets[i]);
      assert packets[..i + 1][..i] == packets[..i];
      if body.Err? {
        MarshalStops(packets, i + 1);
        return Err(body.error);
      }
      out := WriteRtcpPacket(out, FmtOf(packets[i]), TypeOf(packets[i]), body.value);
      i := i + 1;
    }
    assert packets[..|packets|] == packets;
    r := Ok(out);
  }

  /** An error in a prefix is the error of the whole. */
  lemma {:induction false} MarshalStops(packets: seq<RtcpPacket>, n: nat)
    requires n <= |packets| && MarshalAll(packets[..n]).Err?
    ensures MarshalAll(packets) == MarshalAll(packets[..n])
    decreases |packets|
  {
    var m := |packets| - 1;
    if n == |packets| {
      assert packets[..n] == packets;
    } else {
      assert packets[..m][..n] == packets[..n];
      MarshalStops(packets[..m], n);
    }
  }

  method ParseOne(kind: Byte, fmt: nat, body: seq<Byte>) returns (r: Result<Option<RtcpPacket>, RtcpError>)
    ensures r == ParseBody(kind, fmt, body)
  {
    if kind == SR {
      if |body| < 24 {
        return Err(InvalidRtcp);
      }
      var w := ReadWords(body, 0, 6);
      var blocks := ParseBlocks(body, 24, fmt);
      if blocks.Err? {
        return Err(blocks.error);
      }
      r := Ok(Some(SenderReport(w[0], w[1], w[2], w[3], w[4], w[5], blocks.value)));
    } else if kind == RR {
      if |body| < 4 {
        return Err(InvalidRtcp);
      }
      var blocks := ParseBlocks(body, 4, fmt);
      if blocks.Err? {
        return Err(blocks.error);
      }
      r := Ok(Some(ReceiverReport(Get32(body, 0), blocks.value)));
    } else if kind == SDES {
      var chunks := ParseSdes(fmt, body);
      r := if chunks.Ok? then Ok(Some(SourceDescription(chunks.value))) else Err(chunks.error);
    } else if kind == BYE {
      var bye := ParseBye(fmt, body);
      r := Found(bye);
    } else {
      r := ParseFeedback(kind, fmt, body);
    }
  }

  method ParseFeedback(kind: Byte, fmt: nat, body: seq<Byte>) returns (r: Result<Option<RtcpPacket>, RtcpError>)
    requires kind != SR && kind != RR && kind != SDES && kind != BYE
    ensures r == ParseBody(kind, fmt, body)
  {
    var one: Result<RtcpPacket, RtcpError> := Err(InvalidRtcp);
    if kind == RTPFB {
      if fmt == 1 {
        one := ParseNackBody(body);
      } else if fmt == 15 {
        one := ParseTwcc(body);
      }
    } else if kind == PSFB {
      if fmt == 1 {
        one := ParsePli(body);
      } else if fmt == 4 {
        one := ParseFirBody(body);
      } else if fmt == 15 {
        one := ParseRembBody(body);
      }
    } else {
      return Ok(None);
    }
    r := Found(one);
  }

  /** The sub-packet loop: the first malformed sub-packet makes the whole call fail. */
  method ParseRtcpPackets(raw: seq<Byte>) returns (r: Result<seq<RtcpPacket>, RtcpError>)
    ensures r == ParseAll(raw, 0)
  {
    var packets: seq<RtcpPacket> := [];
    var offset: nat := 0;
    ghost var all := ParseAll(raw, 0);
    assert all.Ok? ==> [] + all.value == all.value;
    while offset + 4 <= |raw|
      invariant all == Joined(packets, ParseAll(raw, offset))
      decreases |raw| - offset
    {
      var sub := SubPacketAt(raw, offset);
      if sub.Err? {
        return Err(sub.error);
      }
      var one := ParseOne(sub.value.kind, sub.value.fmt, sub.value.body);
      if one.Err? {
        return Err(one.error);
      }
      var found := Optional(one.value);
      ghost var rest := ParseAll(raw, sub.value.next);
      if rest.Ok? { Assoc3(packets, found, rest.value); }
      packets := packets + found;
      offset := sub.value.next;
    }
    assert packets + [] == packets;
    r := Ok(packets);
  }
}

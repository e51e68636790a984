/** RTP packets: the header with its CSRC list and extension block, and the padded payload (src/rtp.rs). */
module Rtp {
  import opened Wrappers
  import opened Bytes
  import Modular

  datatype Extension = Extension(profile: U16, data: seq<Byte>)

  datatype Header = Header(marker: bool, payloadType: Byte, sequence: U16, timestamp: U32, ssrc: U32,
                           csrcs: seq<U32>, extension: Option<Extension>)

  datatype Packet = Packet(header: Header, payload: seq<Byte>, padding: Byte)

  datatype Error = PacketTooShort | UnsupportedVersion(version: Byte) | InvalidHeader | LengthMismatch

  // ----- the wire form

  function B0(h: Header, padding: bool): (b: Byte)
  {
    0x80 + (if padding then 0x20 else 0) + (if h.extension.Some? then 0x10 else 0) + |h.csrcs| % 16
  }

  function B1(h: Header): (b: Byte) { (if h.marker then 0x80 else 0) + h.payloadType % 128 }

  function Fixed(h: Header, padding: bool): (b: seq<Byte>)
    ensures |b| == 12
  {
    [B0(h, padding), B1(h)] + Be16(h.sequence) + Be32(h.timestamp) + Be32(h.ssrc)
  }

  function Words(ws: seq<U32>): (b: seq<Byte>)
    ensures |b| == 4 * |ws|
  {
    if ws == [] then [] else Words(ws[..|ws| - 1]) + Be32(ws[|ws| - 1])
  }

  function ExtensionBytes(e: Option<Extension>): (b: seq<Byte>)
  {
    match e
    case None => []
    case Some(x) => Be16(x.profile) + Be16(|x.data| / 4 % 0x1_0000) + x.data
  }

  function HeaderBytes(h: Header, padding: bool): (b: seq<Byte>)
    ensures |b| == EncodedLen(h)
  {
    Fixed(h, padding) + Words(h.csrcs) + ExtensionBytes(h.extension)
  }

  function EncodedLen(h: Header): (n: nat)
  {
    12 + 4 * |h.csrcs| + if h.extension.Some? then 4 + |h.extension.value.data| else 0
  }

  /** What `validate` lets through. */
  predicate Valid(h: Header)
  {
    |h.csrcs| <= 15 && (h.extension.Some? ==> |h.extension.value.data| % 4 == 0)
  }

  /** What the wire can carry: a seven-bit payload type and a 16-bit count of extension words as well. */
  predicate Encodable(h: Header)
  {
    Valid(h) && h.payloadType < 128 && (h.extension.Some? ==> |h.extension.value.data| < 0x4_0000)
  }

  // ----- reading a header

  function ReadWords(raw: seq<Byte>, at: nat, n: nat): (ws: seq<U32>)
    requires at + 4 * n <= |raw|
    ensures |ws| == n
  {
    if n == 0 then [] else ReadWords(raw, at, n - 1) + [Get32(raw, at + 4 * n - 4)]
  }

  function ReadExtension(raw: seq<Byte>, at: nat): (r: Result<Extension, Error>)
  {
    if |raw| < at + 4 then Err(PacketTooShort)
    else
      var n := 4 * Get16(raw, at + 2);
      if |raw| < at + 4 + n then Err(PacketTooShort) else Ok(Extension(Get16(raw, at), raw[at + 4..at + 4 + n]))
  }

  /** A parsed header, its padding bit, and how many bytes it took. */
  datatype Parsed = Parsed(header: Header, padding: bool, length: nat)

  /** The header the first twelve bytes announce, given what follows them. */
  function HeaderOf(raw: seq<Byte>, csrcs: seq<U32>, extension: Option<Extension>): (h: Header)
    requires |raw| >= 12
  {
    Header(raw[1] >= 128, raw[1] % 128, Get16(raw, 2), Get32(raw, 4), Get32(raw, 8), csrcs, extension)
  }

  function Parse(raw: seq<Byte>): (r: Result<Parsed, Error>)
    ensures r.Ok? ==> 12 <= r.value.length <= |raw|
  {
    if |raw| < 12 then Err(PacketTooShort)
    else if raw[0] / 64 != 2 then Err(UnsupportedVersion(raw[0] / 64))
    else
      var n: nat := raw[0] % 16;
      var at := 12 + 4 * n;
      var padding := raw[0] / 32 % 2 == 1;
      if |raw| < at then Err(PacketTooShort)
      else
        var csrcs := ReadWords(raw, 12, n);
        if raw[0] / 16 % 2 == 0 then Ok(Parsed(HeaderOf(raw, csrcs, None), padding, at))
        else
          match ReadExtension(raw, at)
          case Err(e) => Err(e)
          case Ok(x) => Ok(Parsed(HeaderOf(raw, csrcs, Some(x)), padding, at + 4 + |x.data|))
  }

  /** The parser: fixed fields, then the CSRC loop, then the extension block. */
  method ParseHeader(raw: seq<Byte>) returns (r: Result<Parsed, Error>)
    ensures r == Parse(raw)
  {
    if |raw| < 12 {
      return Err(PacketTooShort);
    }
    var version: Byte := raw[0] / 64;
    if version != 2 {
      return Err(UnsupportedVersion(version));
    }
    var padding, extension, count: nat := raw[0] / 32 % 2 == 1, raw[0] / 16 % 2 == 1, raw[0] % 16;
    if |raw| - 12 < count * 4 {
      return Err(PacketTooShort);
    }
    var csrcs: seq<U32> := [];
    var at: nat := 12;
    for i := 0 to count
      invariant at == 12 + 4 * i && csrcs == ReadWords(raw, 12, i)
    {
      csrcs := csrcs + [Get32(raw, at)];
      at := at + 4;
    }
    if !extension {
      return Ok(Parsed(HeaderOf(raw, csrcs, None), padding, at));
    }
    if |raw| - at < 4 {
      return Err(PacketTooShort);
    }
    var profile, length := Get16(raw, at), 4 * Get16(raw, at + 2);
    at := at + 4;
    if |raw| - at < length {
      return Err(PacketTooShort);
    }
    r := Ok(Parsed(HeaderOf(raw, csrcs, Some(Extension(profile, raw[at..at + length]))), padding, at + length));
  }

  // ----- writing a header

  /** `put_slice`: the bytes go after what is already written, and nothing else changes. */
  method Put(buffer: array<Byte>, at: nat, bytes: seq<Byte>)
    requires at + |bytes| <= buffer.Length
    modifies buffer
    ensures buffer[..at + |bytes|] == old(buffer[..at]) + bytes
    ensures forall k | at + |bytes| <= k < buffer.Length :: buffer[k] == old(buffer[k])
  {
    forall i | 0 <= i < |bytes| {
      buffer[at + i] := bytes[i];
    }
  }

  method WriteFixed(h: Header, padding: bool, buffer: array<Byte>)
    requires 12 <= buffer.Length
    modifies buffer
    ensures buffer[..12] == Fixed(h, padding)
    ensures forall k | 12 <= k < buffer.Length :: buffer[k] == old(buffer[k])
  {
    var b0: Byte := 0x80;
    if padding {
      b0 := b0 + 0x20;
    }
    if h.extension.Some? {
      b0 := b0 + 0x10;
    }
    b0 := b0 + |h.csrcs| % 16;
    var b1: Byte := h.payloadType % 128;
    if h.marker {
      b1 := b1 + 0x80;
    }
    Put(buffer, 0, [b0, b1]);
    Put(buffer, 2, Be16(h.sequence));
    Put(buffer, 4, Be32(h.timestamp));
    Put(buffer, 8, Be32(h.ssrc));
  }

  /** Writes the header at the start of a buffer that is long enough. */
  method WriteTo(h: Header, padding: bool, buffer: array<Byte>)
    requires EncodedLen(h) <= buffer.Length
    modifies buffer
    ensures buffer[..EncodedLen(h)] == HeaderBytes(h, padding)
    ensures forall k | EncodedLen(h) <= k < buffer.Length :: buffer[k] == old(buffer[k])
  {
    WriteFixed(h, padding, buffer);
    var at: nat := 12;
    for i := 0 to |h.csrcs|
      invariant at == 12 + 4 * i
      invariant buffer[..at] == Fixed(h, padding) + Words(h.csrcs[..i])
      invariant forall k | EncodedLen(h) <= k < buffer.Length :: buffer[k] == old(buffer[k])
    {
      assert h.csrcs[..i + 1][..i] == h.csrcs[..i];
      Assoc3(Fixed(h, padding), Words(h.csrcs[..i]), Be32(h.csrcs[i]));
      Put(buffer, at, Be32(h.csrcs[i]));
      at := at + 4;
    }
    assert h.csrcs[..|h.csrcs|] == h.csrcs;
    if h.extension.Some? {
      WriteExtension(h.extension.value, buffer, at);
    } else {
      assert HeaderBytes(h, padding) == Fixed(h, padding) + Words(h.csrcs);
    }
  }

  method WriteExtension(x: Extension, buffer: array<Byte>, at: nat)
    requires at + 4 + |x.data| <= buffer.Length
    modifies buffer
    ensures buffer[..at + 4 + |x.data|] == old(buffer[..at]) + ExtensionBytes(Some(x))
    ensures forall k | at + 4 + |x.data| <= k < buffer.Length :: buffer[k] == old(buffer[k])
  {
    var words: U16 := |x.data| / 4 % 0x1_0000;
    Put(buffer, at, Be16(x.profile));
    Put(buffer, at + 2, Be16(words));
    Put(buffer, at + 4, x.data);
    assert buffer[..at + 4 + |x.data|] == old(buffer[..at]) + (Be16(x.profile) + Be16(words) + x.data);
  }

  // ----- reading back

  /** The first twelve bytes say what was put into them. */
  lemma FixedRead(h: Header, padding: bool, raw: seq<Byte>)
    requires |raw| >= 12 && raw[..12] == Fixed(h, padding) && |h.csrcs| <= 15 && h.payloadType < 128
    ensures raw[0] / 64 == 2 && (raw[0] / 32 % 2 == 1 <==> padding)
    ensures (raw[0] / 16 % 2 == 1 <==> h.extension.Some?) && raw[0] % 16 == |h.csrcs|
    ensures HeaderOf(raw, h.csrcs, h.extension) == h
  {
    FixedFields(h, padding, raw);
    FrontByte(h, padding);
    SecondByte(h);
  }

  /** Where the fields of the first twelve bytes stand. */
  lemma FixedFields(h: Header, padding: bool, raw: seq<Byte>)
    requires |raw| >= 12 && raw[..12] == Fixed(h, padding)
    ensures raw[0] == B0(h, padding) && raw[1] == B1(h)
    ensures Get16(raw, 2) == h.sequence && Get32(raw, 4) == h.timestamp && Get32(raw, 8) == h.ssrc
  {
    var f := Fixed(h, padding);
    assert raw[0] == f[0] && raw[1] == f[1] && raw[2] == f[2] && raw[3] == f[3];
    WordIn(raw, f, 4, h.timestamp);
    WordIn(raw, f, 8, h.ssrc);
  }

  lemma WordIn(raw: seq<Byte>, f: seq<Byte>, at: nat, v: U32)
    requires at + 4 <= |f| <= |raw| && raw[..|f|] == f && f[at..at + 4] == Be32(v)
    ensures Get32(raw, at) == v
  {
    var b := f[at..at + 4];
    assert raw[at] == f[at] == b[0] && raw[at + 1] == f[at + 1] == b[1];
    assert raw[at + 2] == f[at + 2] == b[2] && raw[at + 3] == f[at + 3] == b[3];
    Digits32(v);
  }

  lemma FrontByte(h: Header, padding: bool)
    requires |h.csrcs| <= 15
    ensures var b := B0(h, padding);
            && b / 64 == 2 && (b / 32 % 2 == 1 <==> padding) && (b / 16 % 2 == 1 <==> h.extension.Some?)
            && b % 16 == |h.csrcs|
  {
  }

  lemma SecondByte(h: Header)
    requires h.payloadType < 128
    ensures (B1(h) >= 128 <==> h.marker) && B1(h) % 128 == h.payloadType
  {
  }

  lemma {:induction false} WordsRead(ws: seq<U32>, before: seq<Byte>, after: seq<Byte>)
    ensures ReadWords(before + Words(ws) + after, |before|, |ws|) == ws
  {
    if ws != [] {
      var init, w := ws[..|ws| - 1], ws[|ws| - 1];
      WordsRead(init, before, Be32(w) + after);
      assert before + Words(ws) + after == before + Words(init) + (Be32(w) + after);
      assert before + Words(ws) + after == (before + Words(init)) + Be32(w) + after;
      Read32(w, before + Words(init), after);
    }
  }

  lemma ExtensionRead(x: Extension, before: seq<Byte>, after: seq<Byte>)
    requires |x.data| % 4 == 0 && |x.data| < 0x4_0000
    ensures ReadExtension(before + ExtensionBytes(Some(x)) + after, |before|) == Ok(x)
  {
    var e := ExtensionBytes(Some(x));
    var at := |before|;
    Inside16(before, e, after, 0);
    Inside16(before, e, after, 2);
    assert (before + e + after)[at + 4..at + 4 + |x.data|] == x.data;
  }

  /** A header whose parts have been read is the parsed one. */
  lemma ParseParts(h: Header, padding: bool, raw: seq<Byte>, n: nat)
    requires |raw| >= 12 && raw[0] / 64 == 2 && (raw[0] / 32 % 2 == 1 <==> padding) && raw[0] % 16 == n == |h.csrcs|
    requires (raw[0] / 16 % 2 == 1 <==> h.extension.Some?) && 12 + 4 * n <= |raw|
    requires HeaderOf(raw, h.csrcs, h.extension) == h && ReadWords(raw, 12, n) == h.csrcs
    requires h.extension.Some? ==> ReadExtension(raw, 12 + 4 * n) == Ok(h.extension.value)
    ensures Parse(raw) == Ok(Parsed(h, padding, EncodedLen(h)))
  {
  }

  /** Reading a header back gives the header, its padding bit and its length, whatever follows. */
  lemma ParseInvertsWrite(h: Header, padding: bool, body: seq<Byte>)
    requires Encodable(h)
    ensures Parse(HeaderBytes(h, padding) + body) == Ok(Parsed(h, padding, EncodedLen(h)))
  {
    var f, ws, e := Fixed(h, padding), Words(h.csrcs), ExtensionBytes(h.extension);
    var raw := HeaderBytes(h, padding) + body;
    Assoc3(f + ws, e, body);
    assert raw[..12] == f;
    FixedRead(h, padding, raw);
    WordsRead(h.csrcs, f, e + body);
    if h.extension.Some? {
      ExtensionRead(h.extension.value, f + ws, body);
    }
    ParseParts(h, padding, raw, |h.csrcs|);
  }

  // ----- writing back

  lemma Write16(b: seq<Byte>, at: nat)
    requires at + 2 <= |b|
    ensures Be16(Get16(b, at)) == b[at..at + 2]
  {
  }

  lemma WriteWord(b: seq<Byte>, at: nat)
    requires at + 4 <= |b|
    ensures Be32(Get32(b, at)) == b[at..at + 4]
  {
    Write32(b[at..at + 4]);
  }

  lemma WordsSnoc(ws: seq<U32>, w: U32)
    ensures Words(ws + [w]) == Words(ws) + Be32(w)
  {
    assert (ws + [w])[..|ws|] == ws;
  }

  lemma {:induction false} WordsWrite(raw: seq<Byte>, at: nat, n: nat, end: nat, ws: seq<U32>)
    requires end == at + 4 * n <= |raw| && ws == ReadWords(raw, at, n)
    ensures Words(ws) == raw[at..end]
  {
    if n > 0 {
      var before := ReadWords(raw, at, n - 1);
      WordsWrite(raw, at, n - 1, end - 4, before);
      WordsWriteStep(raw, at, end - 4, before, Get32(raw, end - 4), ws);
    }
  }

  lemma WordsWriteStep(raw: seq<Byte>, at: nat, m: nat, before: seq<U32>, w: U32, ws: seq<U32>)
    requires at <= m && m + 4 <= |raw| && Words(before) == raw[at..m] && w == Get32(raw, m) && ws == before + [w]
    ensures Words(ws) == raw[at..m + 4]
  {
    WordsSnoc(before, w);
    WriteWord(raw, m);
    Join(raw, at, m, m + 4);
  }

  lemma ExtensionWrite(raw: seq<Byte>, at: nat)
    requires ReadExtension(raw, at).Ok?
    ensures var x := ReadExtension(raw, at).value;
            && |x.data| % 4 == 0 && |x.data| < 0x4_0000
            && at + 4 + |x.data| <= |raw| && ExtensionBytes(Some(x)) == raw[at..at + 4 + |x.data|]
  {
    var x := ReadExtension(raw, at).value;
    var words := Get16(raw, at + 2);
    Modular.Unique(|x.data|, 4, words, 0);
    Modular.Unique(words, 0x1_0000, 0, words);
    Write16(raw, at);
    Write16(raw, at + 2);
    Join(raw, at, at + 2, at + 4);
    Join(raw, at, at + 4, at + 4 + |x.data|);
  }

  /** The twelve bytes of a parsed header are the twelve bytes received. */
  lemma FixedWrite(raw: seq<Byte>, csrcs: seq<U32>, extension: Option<Extension>)
    requires |raw| >= 12 && raw[0] / 64 == 2 && raw[0] % 16 == |csrcs| && (raw[0] / 16 % 2 == 1 <==> extension.Some?)
    ensures Fixed(HeaderOf(raw, csrcs, extension), raw[0] / 32 % 2 == 1) == raw[..12]
  {
    var h := HeaderOf(raw, csrcs, extension);
    FrontByteBack(h, raw[0]);
    Write16(raw, 2);
    WriteWord(raw, 4);
    WriteWord(raw, 8);
    var head := [B0(h, raw[0] / 32 % 2 == 1), B1(h)];
    assert head == raw[0..2];
    FourParts(raw, head, Be16(h.sequence), Be32(h.timestamp), Be32(h.ssrc));
  }

  lemma FrontByteBack(h: Header, b: Byte)
    requires b / 64 == 2 && b % 16 == |h.csrcs| && (b / 16 % 2 == 1 <==> h.extension.Some?)
    ensures B0(h, b / 32 % 2 == 1) == b
  {
    var x: int := b;
    assert x == 64 * (x / 64) + 32 * (x / 32 % 2) + 16 * (x / 16 % 2) + x % 16;
  }

  lemma FourParts(raw: seq<Byte>, a: seq<Byte>, b: seq<Byte>, c: seq<Byte>, d: seq<Byte>)
    requires |raw| >= 12 && a == raw[0..2] && b == raw[2..4] && c == raw[4..8] && d == raw[8..12]
    ensures a + b + c + d == raw[..12]
  {
    Join(raw, 0, 2, 4);
    Join(raw, 0, 4, 8);
    Join(raw, 0, 8, 12);
  }

  /** What a successful parse found, part by part. */
  predicate Shape(raw: seq<Byte>, p: Parsed)
    requires |raw| >= 12
  {
    var n: nat := raw[0] % 16;
    && raw[0] / 64 == 2 && 12 + 4 * n <= |raw| && p.padding == (raw[0] / 32 % 2 == 1)
    && p.header == HeaderOf(raw, ReadWords(raw, 12, n), p.header.extension)
    && (raw[0] / 16 % 2 == 1 <==> p.header.extension.Some?)
    && if p.header.extension.None? then p.length == 12 + 4 * n
       else ReadExtension(raw, 12 + 4 * n) == Ok(p.header.extension.value)
            && p.length == 16 + 4 * n + |p.header.extension.value.data|
  }

  lemma ParsedShape(raw: seq<Byte>)
    requires Parse(raw).Ok?
    ensures Shape(raw, Parse(raw).value)
  {
  }

  lemma ExtensionPart(raw: seq<Byte>, e: Option<Extension>, a: nat, b: nat)
    requires a <= b <= |raw|
    requires if e.None? then b == a else ReadExtension(raw, a) == Ok(e.value) && b == a + 4 + |e.value.data|
    ensures ExtensionBytes(e) == raw[a..b]
    ensures e.Some? ==> |e.value.data| % 4 == 0 && |e.value.data| < 0x4_0000
  {
    if e.Some? { ExtensionWrite(raw, a); }
  }

  lemma FixedPart(raw: seq<Byte>, p: Parsed)
    requires |raw| >= 12 && Shape(raw, p)
    ensures Fixed(p.header, p.padding) == raw[..12] && |p.header.csrcs| <= 15 && p.header.payloadType < 128
    ensures p.header.csrcs == ReadWords(raw, 12, raw[0] % 16)
  {
    FixedWrite(raw, p.header.csrcs, p.header.extension);
  }

  lemma ShapeWrites(raw: seq<Byte>, p: Parsed)
    requires |raw| >= 12 && Shape(raw, p) && p.length <= |raw|
    ensures Encodable(p.header) && EncodedLen(p.header) == p.length
            && HeaderBytes(p.header, p.padding) == raw[..p.length]
  {
    var h := p.header;
    var a := 12 + 4 * |h.csrcs|;
    FixedPart(raw, p);
    WordsWrite(raw, 12, |h.csrcs|, a, h.csrcs);
    ExtensionPart(raw, h.extension, a, p.length);
    JoinParts(h, p.padding, raw, a, p.length);
  }

  lemma JoinParts(h: Header, padding: bool, raw: seq<Byte>, a: nat, b: nat)
    requires 12 <= a <= b <= |raw|
    requires Fixed(h, padding) == raw[..12] && Words(h.csrcs) == raw[12..a] && ExtensionBytes(h.extension) == raw[a..b]
    ensures HeaderBytes(h, padding) == raw[..b]
  {
    Join(raw, 0, 12, a);
    Join(raw, 0, a, b);
  }

  /**
   Writing a parsed header out gives the bytes it was parsed from: what a receiver authenticates after splitting off the
   body is what arrived.
   */
  lemma WriteInvertsParse(raw: seq<Byte>)
    requires Parse(raw).Ok?
    ensures var p := Parse(raw).value;
            Encodable(p.header) && EncodedLen(p.header) == p.length
              && HeaderBytes(p.header, p.padding) == raw[..p.length]
  {
    ParsedShape(raw);
    ShapeWrites(raw, Parse(raw).value);
  }

  // ----- packets

  function PacketBytes(p: Packet): (b: seq<Byte>)
    ensures |b| == EncodedLen(p.header) + |p.payload| + p.padding
  {
    HeaderBytes(p.header, p.padding != 0) + p.payload + Repeated(p.padding, p.padding)
  }

  function ParsePacket(raw: seq<Byte>): (r: Result<Packet, Error>)
  {
    match Parse(raw)
    case Err(e) => Err(e)
    case Ok(p) =>
      var body := raw[p.length..];
      if !p.padding then Ok(Packet(p.header, body, 0))
      else if body == [] then Err(PacketTooShort)
      else
        var pad := body[|body| - 1];
        if pad > |body| then Err(InvalidHeader) else Ok(Packet(p.header, body[..|body| - pad], pad))
  }

  method Marshal(p: Packet) returns (r: Result<seq<Byte>, Error>)
    ensures r == if Valid(p.header) then Ok(PacketBytes(p)) else Err(InvalidHeader)
  {
    var buffer := new Byte[EncodedLen(p.header) + |p.payload| + p.padding];
    if !Valid(p.header) {
      return Err(InvalidHeader);
    }
    WriteTo(p.header, p.padding != 0, buffer);
    var at := EncodedLen(p.header);
    Put(buffer, at, p.payload);
    if p.padding != 0 {
      Put(buffer, at + |p.payload|, Repeated(p.padding, p.padding));
    }
    assert p.padding == 0 ==> PacketBytes(p) == HeaderBytes(p.header, false) + p.payload;
    assert buffer[..buffer.Length] == buffer[..];
    r := Ok(buffer[..]);
  }

  /** A packet that `marshal` accepts comes back exactly when its payload type and extension length fit the wire. */
  lemma PacketRoundTrip(p: Packet)
    requires Valid(p.header)
    ensures ParsePacket(PacketBytes(p)) == Ok(p) <==> Encodable(p.header)
  {
    var raw := PacketBytes(p);
    if Encodable(p.header) {
      var tail := Repeated(p.padding, p.padding);
      var body := p.payload + tail;
      Assoc3(HeaderBytes(p.header, p.padding != 0), p.payload, tail);
      ParseInvertsWrite(p.header, p.padding != 0, body);
      assert raw[EncodedLen(p.header)..] == body;
      if p.padding == 0 {
        assert body == p.payload;
      } else {
        assert body[|body| - 1] == p.padding;
        assert body[..|body| - p.padding] == p.payload;
      }
    } else if ParsePacket(raw) == Ok(p) {
      WriteInvertsParse(raw);
    }
  }

  /** A payload type of 128 or more is valid and is written, and is read back as another one. */
  lemma WideTypeIsLost(p: Packet, q: Packet)
    requires Encodable(q.header)
    requires p == q.(header := q.header.(payloadType := q.header.payloadType + 128))
    ensures Valid(p.header) && PacketBytes(p) == PacketBytes(q) && ParsePacket(PacketBytes(p)) == Ok(q) && p != q
  {
    assert HeaderBytes(p.header, p.padding != 0) == HeaderBytes(q.header, q.padding != 0);
    PacketRoundTrip(q);
  }
}

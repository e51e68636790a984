/**
 One SRTP context (src/srtp.rs): how a packet is protected and unprotected, for the four profiles, with and without a
 master key identifier (MKI). The AES keystream, the HMAC-SHA1 digest and the GCM tag are unknown functions of their
 inputs.
 */
module Srtp {
  import opened Wrappers
  import opened Bytes
  import opened SrtpIndex
  import opened SrtpIv
  import Rtp

  datatype Profile = Aes128Sha1_80 | Aes128Sha1_32 | AeadAes128Gcm | NullCipherHmac

  function TagLen(p: Profile): (n: nat)
  {
    match p
    case Aes128Sha1_80 => 10
    case Aes128Sha1_32 => 4
    case AeadAes128Gcm => 16
    case NullCipherHmac => 10
  }

  function SaltLen(p: Profile): (n: nat) { if p.AeadAes128Gcm? then 12 else 14 }

  /**
   The session keys of one direction: `stream(iv, n)` is byte `n` of the keystream, `mac(data, n)` byte `n` of the
   digest and `gmac(nonce, aad, ciphertext, n)` byte `n` of the GCM tag.
   */
  datatype Keys = Keys(profile: Profile, ssrc: U32, salt: seq<Byte>,
                       stream: (seq<Byte>, nat) -> Byte,
                       mac: (seq<Byte>, nat) -> Byte,
                       gmac: (seq<Byte>, seq<Byte>, seq<Byte>, nat) -> Byte)

  predicate KeysOk(k: Keys) { |k.salt| == SaltLen(k.profile) }

  datatype Error = PacketTooShort | AuthenticationFailed | Internal | Header(error: Rtp.Error)

  // ----- one packet at a known index

  function Vector(k: Keys, i: Index): (iv: seq<Byte>)
    requires KeysOk(k)
  {
    if k.profile.AeadAes128Gcm? then Nonce(k.salt, k.ssrc, i) else Iv(k.salt, k.ssrc, i)
  }

  function Masked(k: Keys, iv: seq<Byte>, data: seq<Byte>): (r: seq<Byte>)
    ensures |r| == |data|
  {
    seq(|data|, n requires 0 <= n < |data| => MaskedByte(k, iv, data[n], n))
  }

  function MaskedByte(k: Keys, iv: seq<Byte>, b: Byte, n: nat): (r: Byte) { Xor(b, k.stream(iv, n)) }

  /** Encryption and decryption alike. */
  function Crypt(k: Keys, i: Index, data: seq<Byte>): (r: seq<Byte>)
    requires KeysOk(k)
    ensures |r| == |data|
  {
    if k.profile.NullCipherHmac? then data else Masked(k, Vector(k, i), data)
  }

  lemma CryptTwice(k: Keys, i: Index, data: seq<Byte>)
    requires KeysOk(k)
    ensures Crypt(k, i, Crypt(k, i, data)) == data
  {
    var r := Crypt(k, i, Crypt(k, i, data));
    if !k.profile.NullCipherHmac? {
      forall n | 0 <= n < |data| ensures r[n] == data[n] { XorTwice(data[n], k.stream(Vector(k, i), n)); }
    }
  }

  /** What the digest covers. */
  function MacInput(header: seq<Byte>, text: seq<Byte>, roc: U32): (m: seq<Byte>) { header + text + Be32(roc) }

  function Tag(k: Keys, i: Index, header: seq<Byte>, text: seq<Byte>): (t: seq<Byte>)
    requires KeysOk(k)
    ensures |t| == TagLen(k.profile)
  {
    if k.profile.AeadAes128Gcm? then seq(TagLen(k.profile), (n: nat) => GmacByte(k, Vector(k, i), header, text, n))
    else seq(TagLen(k.profile), (n: nat) => MacByte(k, MacInput(header, text, Roc(i)), n))
  }

  function MacByte(k: Keys, data: seq<Byte>, n: nat): (b: Byte) { k.mac(data, n) }

  function GmacByte(k: Keys, nonce: seq<Byte>, aad: seq<Byte>, text: seq<Byte>, n: nat): (b: Byte)
  {
    k.gmac(nonce, aad, text, n)
  }

  function Trailer(k: Keys, tag: seq<Byte>, mki: seq<Byte>): (t: seq<Byte>)
    ensures |t| == |tag| + |mki|
  {
    if k.profile.AeadAes128Gcm? then tag + mki else mki + tag
  }

  /** Payload and padding. */
  function Body(p: Rtp.Packet): (b: seq<Byte>) { p.payload + Repeated(p.padding, p.padding) }

  function Clear(p: Rtp.Packet): (h: seq<Byte>) { Rtp.HeaderBytes(p.header, p.padding != 0) }

  /** The protected packet. */
  function Sealed(k: Keys, i: Index, p: Rtp.Packet, mki: seq<Byte>): (raw: seq<Byte>)
    requires KeysOk(k)
    ensures |raw| == |Clear(p)| + |Body(p)| + TagLen(k.profile) + |mki|
  {
    var text := Crypt(k, i, Body(p));
    Clear(p) + (text + Trailer(k, Tag(k, i, Clear(p), text), mki))
  }

  /** Takes the padding off. */
  function Finish(header: Rtp.Header, padding: bool, plain: seq<Byte>): (r: Result<Rtp.Packet, Error>)
  {
    if !padding then Ok(Rtp.Packet(header, plain, 0))
    else if plain == [] then Err(PacketTooShort)
    else
      var n := plain[|plain| - 1];
      if n == 0 || n > |plain| then Err(Internal) else Ok(Rtp.Packet(header, plain[..|plain| - n], n))
  }

  /** The ciphertext of a received body whose MKI has `mkiLen` bytes. */
  function TextOf(k: Keys, body: seq<Byte>, mkiLen: nat): (text: seq<Byte>)
    requires TagLen(k.profile) + mkiLen <= |body|
  {
    body[..|body| - TagLen(k.profile) - mkiLen]
  }

  function TagOf(k: Keys, body: seq<Byte>, mkiLen: nat): (tag: seq<Byte>)
    requires TagLen(k.profile) + mkiLen <= |body|
  {
    var split := |body| - TagLen(k.profile) - mkiLen;
    if k.profile.AeadAes128Gcm? then body[split..split + TagLen(k.profile)] else body[split + mkiLen..]
  }

  /** The received tag is the tag of the received header and text at index `i`. */
  predicate Authentic(k: Keys, i: Index, header: Rtp.Header, padding: bool, body: seq<Byte>, mkiLen: nat)
    requires KeysOk(k)
  {
    && TagLen(k.profile) + mkiLen <= |body|
    && TagOf(k, body, mkiLen) == Tag(k, i, Rtp.HeaderBytes(header, padding), TextOf(k, body, mkiLen))
  }

  function Opened(k: Keys, i: Index, header: Rtp.Header, padding: bool, body: seq<Byte>, mkiLen: nat)
    : (r: Result<Rtp.Packet, Error>)
    requires KeysOk(k)
  {
    if |body| < TagLen(k.profile) + mkiLen then Err(PacketTooShort)
    else if !Authentic(k, i, header, padding, body, mkiLen) then Err(AuthenticationFailed)
    else Finish(header, padding, Crypt(k, i, TextOf(k, body, mkiLen)))
  }

  // ----- layout round trip

  lemma FinishBody(p: Rtp.Packet)
    ensures Finish(p.header, p.padding != 0, Body(p)) == Ok(p)
  {
    var b := Body(p);
    if p.padding == 0 {
      assert b == p.payload;
    } else {
      assert b[|b| - 1] == p.padding;
      assert b[..|b| - p.padding] == p.payload;
    }
  }

  lemma SplitBody(k: Keys, text: seq<Byte>, tag: seq<Byte>, mki: seq<Byte>)
    requires |tag| == TagLen(k.profile)
    ensures var body := text + Trailer(k, tag, mki);
            TextOf(k, body, |mki|) == text && TagOf(k, body, |mki|) == tag
  {
  }

  /** What `Sealed` put together, `Opened` takes apart. */
  lemma OpenSealed(k: Keys, i: Index, p: Rtp.Packet, mki: seq<Byte>)
    requires KeysOk(k)
    ensures var text := Crypt(k, i, Body(p));
            Opened(k, i, p.header, p.padding != 0, text + Trailer(k, Tag(k, i, Clear(p), text), mki), |mki|) == Ok(p)
  {
    var text := Crypt(k, i, Body(p));
    SplitBody(k, text, Tag(k, i, Clear(p), text), mki);
    CryptTwice(k, i, Body(p));
    FinishBody(p);
  }

  /** A received datagram, split like `SrtpPacket::parse` does. */
  function Received(k: Keys, i: Index, raw: seq<Byte>, mkiLen: nat): (r: Result<Rtp.Packet, Error>)
    requires KeysOk(k)
  {
    match Rtp.Parse(raw)
    case Err(e) => Err(Header(e))
    case Ok(p) => Opened(k, i, p.header, p.padding, raw[p.length..], mkiLen)
  }

  /**
   Layout round trip, for every profile, MKI, CSRC list, extension block and padding: at the sender's index the
   receiver gets the packet back exactly when its header fits the wire.
   */
  lemma LayoutRoundTrip(k: Keys, i: Index, p: Rtp.Packet, mki: seq<Byte>)
    requires KeysOk(k) && Rtp.Valid(p.header)
    ensures Received(k, i, Sealed(k, i, p, mki), |mki|) == Ok(p) <==> Rtp.Encodable(p.header)
  {
    var raw := Sealed(k, i, p, mki);
    if Rtp.Encodable(p.header) {
      var text := Crypt(k, i, Body(p));
      var body := text + Trailer(k, Tag(k, i, Clear(p), text), mki);
      Rtp.ParseInvertsWrite(p.header, p.padding != 0, body);
      assert raw[|Clear(p)|..] == body;
      OpenSealed(k, i, p, mki);
    } else if Received(k, i, raw, |mki|) == Ok(p) {
      Rtp.WriteInvertsParse(raw);
    }
  }

  /** A payload type of 128 or more is protected like the one 128 below it, and arrives as that one. */
  lemma WideTypeIsLost(k: Keys, i: Index, p: Rtp.Packet, q: Rtp.Packet, mki: seq<Byte>)
    requires KeysOk(k) && Rtp.Encodable(q.header)
    requires p == q.(header := q.header.(payloadType := q.header.payloadType + 128))
    ensures Rtp.Valid(p.header) && Received(k, i, Sealed(k, i, p, mki), |mki|) == Ok(q) && p != q
  {
    assert Clear(p) == Clear(q) && Body(p) == Body(q);
    LayoutRoundTrip(k, i, q, mki);
  }
}

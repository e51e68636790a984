/**
 SRTCP in one context: the three trailer layouts and the 31-bit index (src/srtp.rs, section 3.4 of RFC 3711, RFC 7714).
 */
module Srtcp {
  import opened Wrappers
  import opened Bytes
  import opened SrtpIv
  import opened Srtp

  const E_BIT: U32 := 0x8000_0000

  /** `index | 0x8000_0000`. */
  function WithEBit(index: U32): (e: U32)
    ensures e >= E_BIT && e % E_BIT == index % E_BIT
  {
    if index >= E_BIT then index else index + E_BIT
  }

  function RtcpVector(k: Keys, index: U32): (iv: seq<Byte>)
    requires KeysOk(k)
  {
    if k.profile.AeadAes128Gcm? then RtcpNonce(k.salt, k.ssrc, index) else RtcpIv(k.salt, k.ssrc, index)
  }

  /** The first eight bytes stay clear. SRTCP is encrypted under every profile. */
  function RtcpCrypt(k: Keys, index: U32, packet: seq<Byte>): (r: seq<Byte>)
    requires KeysOk(k)
    ensures |r| == |packet|
  {
    if |packet| <= 8 then packet else packet[..8] + Masked(k, RtcpVector(k, index), packet[8..])
  }

  lemma MaskedTwice(k: Keys, iv: seq<Byte>, data: seq<Byte>)
    ensures Masked(k, iv, Masked(k, iv, data)) == data
  {
    var r := Masked(k, iv, Masked(k, iv, data));
    forall n | 0 <= n < |data| ensures r[n] == data[n] { XorTwice(data[n], k.stream(iv, n)); }
  }

  lemma RtcpCryptTwice(k: Keys, index: U32, packet: seq<Byte>)
    requires KeysOk(k)
    ensures RtcpCrypt(k, index, RtcpCrypt(k, index, packet)) == packet
  {
    if |packet| > 8 {
      var c := RtcpCrypt(k, index, packet);
      assert c[..8] == packet[..8] && c[8..] == Masked(k, RtcpVector(k, index), packet[8..]);
      MaskedTwice(k, RtcpVector(k, index), packet[8..]);
      assert packet[..8] + packet[8..] == packet;
    }
  }

  function MacTag(k: Keys, data: seq<Byte>): (t: seq<Byte>)
    ensures |t| == TagLen(k.profile)
  {
    seq(TagLen(k.profile), (n: nat) => MacByte(k, data, n))
  }

  function GcmTag(k: Keys, nonce: seq<Byte>, aad: seq<Byte>, text: seq<Byte>): (t: seq<Byte>)
    ensures |t| == TagLen(k.profile)
  {
    seq(TagLen(k.profile), (n: nat) => GmacByte(k, nonce, aad, text, n))
  }

  /** GCM: header, ciphertext, tag, index, MKI. HMAC: header, ciphertext, index, MKI, digest. */
  function RtcpSealed(k: Keys, index: U32, packet: seq<Byte>, mki: seq<Byte>): (raw: seq<Byte>)
    requires KeysOk(k) && (k.profile.AeadAes128Gcm? ==> |packet| >= 8)
  {
    var text := RtcpCrypt(k, index, packet);
    var e := Be32(WithEBit(index));
    if k.profile.AeadAes128Gcm? then text + GcmTag(k, RtcpVector(k, index), packet[..8] + e, text[8..]) + e + mki
    else text + e + mki + MacTag(k, text + e)
  }

  /** The clear packet and the index it carried. */
  datatype Opening = Opening(packet: seq<Byte>, index: U32)

  function OpenedGcm(k: Keys, raw: seq<Byte>, mkiLen: nat): (r: Result<Opening, Error>)
    requires KeysOk(k) && k.profile.AeadAes128Gcm? && |raw| >= 16 + mkiLen + 4
  {
    var at := |raw| - mkiLen - 4;
    var e := Get32(raw, at);
    var index := e % E_BIT;
    if at - 8 < 16 then Err(AuthenticationFailed)
    else
      var (text, tag) := (raw[..at - 16], raw[at - 16..at]);
      if tag != GcmTag(k, RtcpVector(k, index), raw[..8] + Be32(e), text[8..]) then Err(AuthenticationFailed)
      else Ok(Opening(RtcpCrypt(k, index, text), index))
  }

  function OpenedMac(k: Keys, raw: seq<Byte>, mkiLen: nat): (r: Result<Opening, Error>)
    requires KeysOk(k) && !k.profile.AeadAes128Gcm? && |raw| >= TagLen(k.profile) + mkiLen + 4
  {
    var end := |raw| - TagLen(k.profile);
    var data := raw[..end - mkiLen];
    if raw[end..] != MacTag(k, data) then Err(AuthenticationFailed)
    else
      var at := |data| - 4;
      var e := Get32(data, at);
      Ok(Opening(if e >= E_BIT then RtcpCrypt(k, e % E_BIT, data[..at]) else data[..at], e % E_BIT))
  }

  function RtcpOpened(k: Keys, raw: seq<Byte>, mkiLen: nat): (r: Result<Opening, Error>)
    requires KeysOk(k)
  {
    if |raw| < TagLen(k.profile) + mkiLen + 4 then Err(PacketTooShort)
    else if k.profile.AeadAes128Gcm? then OpenedGcm(k, raw, mkiLen)
    else OpenedMac(k, raw, mkiLen)
  }

  // ----- round trip

  lemma GcmRoundTrip(k: Keys, index: U32, text: seq<Byte>, e: U32, tag: seq<Byte>, mki: seq<Byte>)
    requires KeysOk(k) && k.profile.AeadAes128Gcm? && |text| >= 8 && index == e % E_BIT
    requires tag == GcmTag(k, RtcpVector(k, index), text[..8] + Be32(e), text[8..])
    ensures OpenedGcm(k, text + tag + Be32(e) + mki, |mki|) == Ok(Opening(RtcpCrypt(k, index, text), index))
  {
    Read32(e, text + tag, mki);
    GcmParts(text, tag, Be32(e), mki, text + tag + Be32(e) + mki);
  }

  lemma GcmParts(text: seq<Byte>, tag: seq<Byte>, e: seq<Byte>, mki: seq<Byte>, raw: seq<Byte>)
    requires |text| >= 8 && |tag| == 16 && |e| == 4 && raw == text + tag + e + mki
    ensures var at := |raw| - |mki| - 4; raw[..at - 16] == text && raw[at - 16..at] == tag && raw[..8] == text[..8]
  {
  }

  lemma MacRoundTrip(k: Keys, index: U32, text: seq<Byte>, e: U32, mki: seq<Byte>)
    requires KeysOk(k) && !k.profile.AeadAes128Gcm? && index == e % E_BIT && e >= E_BIT
    ensures OpenedMac(k, text + Be32(e) + mki + MacTag(k, text + Be32(e)), |mki|)
            == Ok(Opening(RtcpCrypt(k, index, text), index))
  {
    var data := text + Be32(e);
    var raw := data + mki + MacTag(k, data);
    var end := |raw| - TagLen(k.profile);
    assert raw[..end - |mki|] == data && raw[end..] == MacTag(k, data);
    Read32(e, text, []);
    assert data == text + Be32(e) + [] && data[..|data| - 4] == text;
  }

  /** What the receiver makes of a protected packet: always authentic, read at the index modulo 2^31. */
  lemma SealedOpens(k: Keys, index: U32, low: U32, packet: seq<Byte>, mki: seq<Byte>)
    requires KeysOk(k) && (k.profile.AeadAes128Gcm? ==> |packet| >= 8) && low == index % E_BIT
    requires index == low || !k.profile.AeadAes128Gcm?
    ensures RtcpOpened(k, RtcpSealed(k, index, packet, mki), |mki|)
            == Ok(Opening(RtcpCrypt(k, low, RtcpCrypt(k, index, packet)), low))
  {
    var text, e := RtcpCrypt(k, index, packet), WithEBit(index);
    if k.profile.AeadAes128Gcm? {
      assert text[..8] == packet[..8];
      GcmRoundTrip(k, index, text, e, GcmTag(k, RtcpVector(k, index), packet[..8] + Be32(e), text[8..]), mki);
    } else {
      MacRoundTrip(k, low, text, e, mki);
    }
  }

  /** SRTCP round trip, for every profile and MKI, as long as the index stays below 2^31. */
  lemma RtcpRoundTrip(k: Keys, index: U32, packet: seq<Byte>, mki: seq<Byte>)
    requires KeysOk(k) && (k.profile.AeadAes128Gcm? ==> |packet| >= 8) && index < E_BIT
    ensures RtcpOpened(k, RtcpSealed(k, index, packet, mki), |mki|) == Ok(Opening(packet, index))
  {
    SealedOpens(k, index, index, packet, mki);
    RtcpCryptTwice(k, index, packet);
  }

  /**
   The index is recovered exactly below 2^31, under every profile: beyond, the E bit hides its top bit. Without GCM
   the packet is still taken for authentic there.
   */
  lemma IndexRecoveredIff(k: Keys, index: U32, packet: seq<Byte>, mki: seq<Byte>)
    requires KeysOk(k) && (k.profile.AeadAes128Gcm? ==> |packet| >= 8)
    ensures var r := RtcpOpened(k, RtcpSealed(k, index, packet, mki), |mki|);
            && (r.Ok? && r.value.index == index <==> index < E_BIT)
            && (!k.profile.AeadAes128Gcm? ==> r.Ok?)
  {
    if index < E_BIT {
      RtcpRoundTrip(k, index, packet, mki);
    } else {
      IndexIsLow(k, RtcpSealed(k, index, packet, mki), |mki|);
      if !k.profile.AeadAes128Gcm? { SealedOpens(k, index, index % E_BIT, packet, mki); }
    }
  }

  /** At index 2^31 the packet opens, without GCM, at index zero. */
  lemma TopBitIsLost(k: Keys, packet: seq<Byte>, mki: seq<Byte>)
    requires KeysOk(k) && !k.profile.AeadAes128Gcm?
    ensures RtcpOpened(k, RtcpSealed(k, E_BIT, packet, mki), |mki|)
            == Ok(Opening(RtcpCrypt(k, 0, RtcpCrypt(k, E_BIT, packet)), 0))
  {
    SealedOpens(k, E_BIT, 0, packet, mki);
  }

  /** No receiver ever reads an index of 2^31 or more. */
  lemma IndexIsLow(k: Keys, raw: seq<Byte>, mkiLen: nat)
    requires KeysOk(k)
    ensures var r := RtcpOpened(k, raw, mkiLen); r.Ok? ==> r.value.index < E_BIT
  {
  }

  // ----- the context

  class Context {
    const keys: Keys
    const txMki: seq<Byte>
    var rtcpIndex: U32

    constructor (keys: Keys, txMki: seq<Byte>)
      ensures this.keys == keys && this.txMki == txMki && rtcpIndex == 0
    {
      this.keys, this.txMki, rtcpIndex := keys, txMki, 0;
    }

    /** Each packet takes the next index. */
    method Protect(packet: seq<Byte>) returns (raw: seq<Byte>)
      requires KeysOk(keys) && (keys.profile.AeadAes128Gcm? ==> |packet| >= 8) && rtcpIndex < 0xFFFF_FFFF
      modifies this
      ensures rtcpIndex == old(rtcpIndex) + 1
      ensures raw == RtcpSealed(keys, rtcpIndex, packet, txMki)
    {
      rtcpIndex := rtcpIndex + 1;
      var e := Be32(WithEBit(rtcpIndex));
      if keys.profile.AeadAes128Gcm? {
        var nonce := RtcpNonce(keys.salt, keys.ssrc, rtcpIndex);
        var aad := packet[..8] + e;
        var text := Masked(keys, nonce, packet[8..]);
        raw := packet[..8];
        raw := raw + text;
        assert raw == RtcpCrypt(keys, rtcpIndex, packet) && raw[8..] == text;
        raw := raw + GcmTag(keys, nonce, aad, text);
        raw := raw + e;
        raw := raw + txMki;
        return;
      }
      raw := packet;
      if |packet| > 8 {
        raw := raw[..8] + Masked(keys, RtcpIv(keys.salt, keys.ssrc, rtcpIndex), raw[8..]);
      }
      raw := raw + e;
      var tag := MacTag(keys, raw);
      raw := raw + txMki;
      raw := raw + tag;
    }

    /** One attempt with an MKI of `mkiLen` bytes; only an authentic packet moves the index, and only forward. */
    method UnprotectWithMki(raw: seq<Byte>, mkiLen: nat) returns (r: Result<seq<Byte>, Error>)
      requires KeysOk(keys)
      modifies this
      ensures match RtcpOpened(keys, raw, mkiLen)
              case Ok(o) =>
                r == Ok(o.packet) && rtcpIndex == if o.index > old(rtcpIndex) then o.index else old(rtcpIndex)
              case Err(e) => r == Err(e) && rtcpIndex == old(rtcpIndex)
    {
      if |raw| < TagLen(keys.profile) + mkiLen + 4 {
        return Err(PacketTooShort);
      }
      if keys.profile.AeadAes128Gcm? {
        r := UnprotectGcm(raw, mkiLen);
      } else {
        r := UnprotectMac(raw, mkiLen);
      }
    }

    method UnprotectGcm(raw: seq<Byte>, mkiLen: nat) returns (r: Result<seq<Byte>, Error>)
      requires KeysOk(keys) && keys.profile.AeadAes128Gcm? && |raw| >= 16 + mkiLen + 4
      modifies this
      ensures match OpenedGcm(keys, raw, mkiLen)
              case Ok(o) =>
                r == Ok(o.packet) && rtcpIndex == if o.index > old(rtcpIndex) then o.index else old(rtcpIndex)
              case Err(e) => r == Err(e) && rtcpIndex == old(rtcpIndex)
    {
      var start := |raw| - mkiLen - 4;
      var e := Get32(raw, start);
      var index: U32 := e % E_BIT;
      var nonce := RtcpNonce(keys.salt, keys.ssrc, index);
      var aad := raw[..8] + Be32(e);
      if start - 8 < 16 {
        return Err(AuthenticationFailed);
      }
      var text, tag := raw[8..start - 16], raw[start - 16..start];
      assert raw[..start - 16][8..] == text;
      if tag != GcmTag(keys, nonce, aad, text) {
        return Err(AuthenticationFailed);
      }
      if index > rtcpIndex {
        rtcpIndex := index;
      }
      var plain := raw[..8] + Masked(keys, nonce, text);
      assert raw[..start - 16][..8] == raw[..8];
      assert plain == RtcpCrypt(keys, index, raw[..start - 16]);
      r := Ok(plain);
    }

    method UnprotectMac(raw: seq<Byte>, mkiLen: nat) returns (r: Result<seq<Byte>, Error>)
      requires KeysOk(keys) && !keys.profile.AeadAes128Gcm? && |raw| >= TagLen(keys.profile) + mkiLen + 4
      modifies this
      ensures match OpenedMac(keys, raw, mkiLen)
              case Ok(o) =>
                r == Ok(o.packet) && rtcpIndex == if o.index > old(rtcpIndex) then o.index else old(rtcpIndex)
              case Err(e) => r == Err(e) && rtcpIndex == old(rtcpIndex)
    {
      var start := |raw| - TagLen(keys.profile);
      var tag := raw[start..];
      var packet := raw[..start];
      packet := packet[..|packet| - mkiLen];
      assert packet == raw[..start - mkiLen];
      if tag != MacTag(keys, packet) {
        return Err(AuthenticationFailed);
      }
      var e := Get32(packet, |packet| - 4);
      packet := packet[..|packet| - 4];
      var index: U32 := e % E_BIT;
      if index > rtcpIndex {
        rtcpIndex := index;
      }
      if e >= E_BIT && |packet| > 8 {
        packet := packet[..8] + Masked(keys, RtcpIv(keys.salt, keys.ssrc, index), packet[8..]);
      }
      r := Ok(packet);
    }
  }
}

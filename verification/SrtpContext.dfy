/** The mutable SRTP context: `protect`, `unprotect` and the adaptive MKI retry (src/srtp.rs). */
module SrtpContext {
  import opened Wrappers
  import opened Bytes
  import opened SrtpIndex
  import opened SrtpIv
  import opened Srtp
  import Rtp

  /** The receive side of a context: the index state, and whether packets carry an MKI once that is settled. */
  datatype Receiver = Receiver(index: State, mode: Option<bool>)

  /** The MKI lengths worth trying, in order. */
  function Candidates(mode: Option<bool>, advertised: nat): (r: seq<nat>)
    ensures 1 <= |r| <= 2
  {
    match mode
    case Some(true) => [advertised]
    case Some(false) => [0]
    case None => if advertised > 0 then [advertised, 0] else [0]
  }

  /** The index a receiver in state `s` takes a packet to have. */
  function Estimated(s: State, sequence: U16): (i: Index) { IndexOf(EstimateRoc(s, sequence), sequence) }

  function Tried(k: Keys, s: State, header: Rtp.Header, padding: bool, body: seq<Byte>, mkiLen: nat)
    : (r: Result<Rtp.Packet, Error>)
    requires KeysOk(k)
  {
    Opened(k, Estimated(s, header.sequence), header, padding, body, mkiLen)
  }

  function Accept(s: State, sequence: U16): (s': State) { Update(s, sequence, EstimateRoc(s, sequence)) }

  /** Candidates from number `n` on, until one opens the packet. */
  function TryFrom(k: Keys, r: Receiver, header: Rtp.Header, padding: bool, body: seq<Byte>, lengths: seq<nat>, n: nat)
    : (o: (Receiver, Result<Rtp.Packet, Error>))
    requires KeysOk(k) && n < |lengths|
    ensures o.1.Err? ==> o.0 == r
    decreases |lengths| - n
  {
    match Tried(k, r.index, header, padding, body, lengths[n])
    case Ok(p) => (Receiver(Accept(r.index, header.sequence), Some(lengths[n] > 0)), Ok(p))
    case Err(e) => if n + 1 < |lengths| then TryFrom(k, r, header, padding, body, lengths, n + 1) else (r, Err(e))
  }

  function Unprotected(k: Keys, r: Receiver, advertised: nat, header: Rtp.Header, padding: bool, body: seq<Byte>)
    : (o: (Receiver, Result<Rtp.Packet, Error>))
    requires KeysOk(k)
    ensures o.1.Err? ==> o.0 == r
  {
    TryFrom(k, r, header, padding, body, Candidates(r.mode, advertised), 0)
  }

  /** A received datagram whose header has been split off. */
  class Datagram {
    const header: Rtp.Header
    const padding: bool
    var body: seq<Byte>

    constructor (header: Rtp.Header, padding: bool, body: seq<Byte>)
      ensures this.header == header && this.padding == padding && this.body == body
    {
      this.header, this.padding, this.body := header, padding, body;
    }
  }

  /** Applies the keystream to a range of a buffer, in place. */
  method ApplyKeystream(k: Keys, iv: seq<Byte>, buffer: array<Byte>, from: nat, to: nat)
    requires from <= to <= buffer.Length
    modifies buffer
    ensures buffer[..to] == old(buffer[..from]) + Masked(k, iv, old(buffer[from..to]))
    ensures forall n | to <= n < buffer.Length :: buffer[n] == old(buffer[n])
  {
    for at := from to to
      invariant forall n | 0 <= n < from :: buffer[n] == old(buffer[n])
      invariant forall n | from <= n < at :: buffer[n] == MaskedByte(k, iv, old(buffer[n]), n - from)
      invariant forall n | at <= n < buffer.Length :: buffer[n] == old(buffer[n])
    {
      buffer[at] := Xor(buffer[at], k.stream(iv, at - from));
    }
  }

  class Context {
    const keys: Keys
    const txMki: seq<Byte>
    const rxMkiLen: nat
    var rolloverCounter: U32
    var lastSequence: Option<U16>
    var rxMkiActive: Option<bool>

    constructor (keys: Keys, txMki: seq<Byte>, rxMkiLen: nat)
      requires KeysOk(keys)
      ensures this.keys == keys && this.txMki == txMki && this.rxMkiLen == rxMkiLen
      ensures Abstract() == Receiver(INITIAL, None)
    {
      this.keys, this.txMki, this.rxMkiLen := keys, txMki, rxMkiLen;
      rolloverCounter, lastSequence, rxMkiActive := 0, None, None;
    }

    function Index(): (s: State) reads this { State(rolloverCounter, lastSequence) }

    function Abstract(): (r: Receiver) reads this { Receiver(Index(), rxMkiActive) }

    method Advance(sequence: U16, roc: U32)
      modifies this`rolloverCounter, this`lastSequence
      ensures Index() == Update(old(Index()), sequence, roc)
    {
      if lastSequence.None? {
        lastSequence := Some(sequence);
        rolloverCounter := roc;
        return;
      }
      var current := 0x1_0000 * rolloverCounter + lastSequence.value;
      var index := 0x1_0000 * roc + sequence;
      if index > current {
        rolloverCounter := roc;
        lastSequence := Some(sequence);
      }
    }

    /** Header, payload and padding in the clear. */
    method WriteClear(packet: Rtp.Packet, output: array<Byte>)
      requires |Clear(packet)| + |Body(packet)| <= output.Length
      modifies output
      ensures output[..|Clear(packet)|] == Clear(packet)
      ensures output[|Clear(packet)|..|Clear(packet)| + |Body(packet)|] == Body(packet)
    {
      var at := Rtp.EncodedLen(packet.header);
      Rtp.WriteTo(packet.header, packet.padding != 0, output);
      Rtp.Put(output, at, packet.payload);
      if packet.padding != 0 {
        Rtp.Put(output, at + |packet.payload|, Repeated(packet.padding, packet.padding));
      }
      assert packet.padding == 0 ==> Body(packet) == packet.payload;
      var whole := output[..at + |Body(packet)|];
      assert whole == Clear(packet) + Body(packet);
      assert whole[..at] == Clear(packet) && whole[at..] == Body(packet);
    }

    method Protect(packet: Rtp.Packet, output: array<Byte>) returns (r: Result<(), Error>)
      requires KeysOk(keys)
      modifies this`rolloverCounter, this`lastSequence, output
      ensures r.Ok? <==>
                && Rtp.Valid(packet.header)
                && output.Length == |Clear(packet)| + |Body(packet)| + TagLen(keys.profile) + |txMki|
      ensures r.Err? ==> Index() == old(Index()) && output[..] == old(output[..])
      ensures r.Ok? ==> Index() == Accept(old(Index()), packet.header.sequence)
      ensures r.Ok? ==> output[..] == Sealed(keys, Estimated(old(Index()), packet.header.sequence), packet, txMki)
    {
      if !Rtp.Valid(packet.header) {
        return Err(Header(Rtp.InvalidHeader));
      }
      var sequence := packet.header.sequence;
      var roc := EstimateRoc(Index(), sequence);
      var headerLen := Rtp.EncodedLen(packet.header);
      var bodyLen := |packet.payload| + packet.padding;
      var bodyEnd := headerLen + bodyLen;
      if output.Length != bodyEnd + |txMki| + TagLen(keys.profile) {
        return Err(Internal);
      }
      WriteClear(packet, output);
      ghost var i := IndexOf(roc, sequence);
      ghost var text := Crypt(keys, i, Body(packet));
      if keys.profile.AeadAes128Gcm? {
        var nonce := BuildNonce(keys.salt, keys.ssrc, sequence, roc);
        ApplyKeystream(keys, nonce, output, headerLen, bodyEnd);
        assert output[..bodyEnd] == Clear(packet) + text;
        SealGcm(nonce, output, headerLen, bodyEnd, i, Clear(packet), text);
      } else {
        if bodyLen != 0 && !keys.profile.NullCipherHmac? {
          var iv := BuildIv(keys.salt, keys.ssrc, sequence, roc);
          ApplyKeystream(keys, iv, output, headerLen, bodyEnd);
        } else {
          assert output[..bodyEnd] == output[..headerLen] + output[headerLen..bodyEnd];
        }
        assert output[..bodyEnd] == Clear(packet) + text;
        SealMac(roc, output, bodyEnd, i, Clear(packet), text);
      }
      Assoc3(Clear(packet), text, Trailer(keys, Tag(keys, i, Clear(packet), text), txMki));
      Advance(sequence, roc);
      r := Ok(());
    }

    /** GCM: the tag right after the ciphertext, the MKI last. */
    method SealGcm(nonce: seq<Byte>, output: array<Byte>, headerLen: nat, bodyEnd: nat, ghost i: Index,
                   ghost clear: seq<Byte>, ghost text: seq<Byte>)
      requires KeysOk(keys) && keys.profile.AeadAes128Gcm? && nonce == Vector(keys, i)
      requires headerLen <= bodyEnd && output.Length == bodyEnd + TagLen(keys.profile) + |txMki|
      requires headerLen == |clear| && output[..bodyEnd] == clear + text
      modifies output
      ensures output[..] == clear + text + Trailer(keys, Tag(keys, i, clear, text), txMki)
    {
      var header, body := output[..headerLen], output[headerLen..bodyEnd];
      assert header == (clear + text)[..headerLen] == clear && body == (clear + text)[headerLen..] == text;
      var tag := seq(TagLen(keys.profile), (n: nat) => GmacByte(keys, nonce, header, body, n));
      assert tag == Tag(keys, i, clear, text);
      var end := bodyEnd + |tag|;
      Rtp.Put(output, end, txMki);
      forall n | end <= n < output.Length ensures output[n] == txMki[n - end] {
        assert output[n] == output[..end + |txMki|][n];
      }
      assert output[..bodyEnd] == output[..end + |txMki|][..bodyEnd] == clear + text;
      Rtp.Put(output, bodyEnd, tag);
      assert output[end..] == txMki;
      assert output[..] == output[..end] + output[end..];
      Assoc3(clear + text, tag, txMki);
    }

    /** HMAC: the MKI first, the truncated digest last. */
    method SealMac(roc: U32, output: array<Byte>, bodyEnd: nat, ghost i: Index, ghost clear: seq<Byte>,
                   ghost text: seq<Byte>)
      requires KeysOk(keys) && !keys.profile.AeadAes128Gcm? && roc == Roc(i)
      requires output.Length == bodyEnd + TagLen(keys.profile) + |txMki| && output[..bodyEnd] == clear + text
      modifies output
      ensures output[..] == clear + text + Trailer(keys, Tag(keys, i, clear, text), txMki)
    {
      var input := output[..bodyEnd] + Be32(roc);
      var tag := seq(TagLen(keys.profile), (n: nat) => MacByte(keys, input, n));
      assert tag == Tag(keys, i, clear, text) by { assert input == MacInput(clear, text, roc); }
      Rtp.Put(output, bodyEnd, txMki);
      Rtp.Put(output, bodyEnd + |txMki|, tag);
      assert output[..] == output[..output.Length];
      assert output[..] == clear + text + (txMki + tag);
    }

    /** Checks the tag and deciphers; `None` is a failed authentication. The body may be cut down on the way. */
    method Decipher(packet: Datagram, mkiLen: nat, header: seq<Byte>, roc: U32) returns (plain: Option<seq<Byte>>)
      requires KeysOk(keys) && TagLen(keys.profile) + mkiLen <= |packet.body|
      requires header == Rtp.HeaderBytes(packet.header, packet.padding)
      modifies packet
      ensures var i := IndexOf(roc, packet.header.sequence);
              var authentic := Authentic(keys, i, packet.header, packet.padding, old(packet.body), mkiLen);
              plain == if authentic then Some(Crypt(keys, i, TextOf(keys, old(packet.body), mkiLen))) else None
    {
      var split := |packet.body| - TagLen(keys.profile) - mkiLen;
      if keys.profile.AeadAes128Gcm? {
        plain := DecipherGcm(packet, split, mkiLen, header, roc);
      } else {
        plain := DecipherMac(packet, split, mkiLen, header, roc);
      }
    }

    method DecipherGcm(packet: Datagram, split: nat, mkiLen: nat, header: seq<Byte>, roc: U32)
      returns (plain: Option<seq<Byte>>)
      requires KeysOk(keys) && keys.profile.AeadAes128Gcm? && split + TagLen(keys.profile) + mkiLen == |packet.body|
      modifies packet
      ensures var i := IndexOf(roc, packet.header.sequence);
              var (text, tag) := (TextOf(keys, old(packet.body), mkiLen), TagOf(keys, old(packet.body), mkiLen));
              plain == if tag == Tag(keys, i, header, text) then Some(Crypt(keys, i, text)) else None
    {
      var nonce := BuildNonce(keys.salt, keys.ssrc, packet.header.sequence, roc);
      var text := packet.body[..split];
      var tag := packet.body[split..split + TagLen(keys.profile)];
      packet.body := text;
      if tag != seq(TagLen(keys.profile), (n: nat) => GmacByte(keys, nonce, header, text, n)) {
        return None;
      }
      plain := Some(Masked(keys, nonce, text));
    }

    method DecipherMac(packet: Datagram, split: nat, mkiLen: nat, header: seq<Byte>, roc: U32)
      returns (plain: Option<seq<Byte>>)
      requires KeysOk(keys) && !keys.profile.AeadAes128Gcm? && split + TagLen(keys.profile) + mkiLen == |packet.body|
      modifies packet
      ensures var i := IndexOf(roc, packet.header.sequence);
              var (text, tag) := (TextOf(keys, old(packet.body), mkiLen), TagOf(keys, old(packet.body), mkiLen));
              plain == if tag == Tag(keys, i, header, text) then Some(Crypt(keys, i, text)) else None
    {
      ghost var i := IndexOf(roc, packet.header.sequence);
      var text := packet.body[..split];
      var input := header + text + Be32(roc);
      var tag := packet.body[split + mkiLen..];
      var expected := seq(TagLen(keys.profile), (n: nat) => MacByte(keys, input, n));
      assert expected == Tag(keys, i, header, text) by { assert input == MacInput(header, text, roc); }
      if tag != expected {
        return None;
      }
      packet.body := text;
      plain := Some(text);
      if text != [] && !keys.profile.NullCipherHmac? {
        var iv := BuildIv(keys.salt, keys.ssrc, packet.header.sequence, roc);
        plain := Some(Masked(keys, iv, text));
      }
    }

    /** One attempt with an MKI of `mkiLen` bytes; it moves the index only when it succeeds. */
    method UnprotectWithMki(packet: Datagram, mkiLen: nat) returns (r: Result<Rtp.Packet, Error>)
      requires KeysOk(keys)
      modifies this`rolloverCounter, this`lastSequence, packet
      ensures r == Tried(keys, old(Index()), packet.header, packet.padding, old(packet.body), mkiLen)
      ensures Index() == if r.Ok? then Accept(old(Index()), packet.header.sequence) else old(Index())
    {
      if |packet.body| < TagLen(keys.profile) + mkiLen {
        return Err(PacketTooShort);
      }
      var sequence := packet.header.sequence;
      var roc := EstimateRoc(Index(), sequence);
      var scratch := new Byte[Rtp.EncodedLen(packet.header)];
      Rtp.WriteTo(packet.header, packet.padding, scratch);
      assert scratch[..scratch.Length] == scratch[..];
      var plain := Decipher(packet, mkiLen, scratch[..], roc);
      if plain.None? {
        return Err(AuthenticationFailed);
      }
      packet.body := plain.value;
      var padding: Byte := 0;
      if packet.padding {
        if packet.body == [] {
          return Err(PacketTooShort);
        }
        padding := packet.body[|packet.body| - 1];
        if padding == 0 || padding > |packet.body| {
          return Err(Internal);
        }
        packet.body := packet.body[..|packet.body| - padding];
      }
      Advance(sequence, roc);
      r := Ok(Rtp.Packet(packet.header, packet.body, padding));
      packet.body := [];
    }

    /**
     Tries the candidates in order, restoring the body between attempts; a failed call leaves the context as it was.
     */
    method Unprotect(packet: Datagram) returns (r: Result<Rtp.Packet, Error>)
      requires KeysOk(keys)
      modifies this`rolloverCounter, this`lastSequence, this`rxMkiActive, packet
      ensures (Abstract(), r)
              == Unprotected(keys, old(Abstract()), rxMkiLen, packet.header, packet.padding, old(packet.body))
    {
      var candidates := Candidates(rxMkiActive, rxMkiLen);
      var original := if |candidates| > 1 then packet.body else [];
      r := Err(AuthenticationFailed);
      var n := 0;
      while n < |candidates|
        invariant n <= |candidates| && Abstract() == old(Abstract())
        invariant n < |candidates| ==> packet.body == old(packet.body)
        invariant n < |candidates| ==>
                    Unprotected(keys, old(Abstract()), rxMkiLen, packet.header, packet.padding, old(packet.body))
                    == TryFrom(keys, Abstract(), packet.header, packet.padding, old(packet.body), candidates, n)
        invariant n == |candidates| ==>
                    && r.Err?
                    && Unprotected(keys, old(Abstract()), rxMkiLen, packet.header, packet.padding, old(packet.body))
                                                  == (Abstract(), r)
      {
        r := UnprotectWithMki(packet, candidates[n]);
        if r.Ok? {
          rxMkiActive := Some(candidates[n] > 0);
          return;
        }
        if n + 1 < |candidates| {
          packet.body := original;
        }
        n := n + 1;
      }
    }
  }
}

/** The premise of the SRTP runs can be met: for every sender there are keys under which no tag is right by chance. */
module SrtpIdeal {
  import opened Wrappers
  import opened Bytes
  import opened SrtpIndex
  import opened SrtpIv
  import opened Srtp
  import opened SrtpContext
  import opened SrtpRun
  import Modular
  import Rtp

  // ----- ideal digests

  /** Everything the sender of the log authenticates. */
  function Inputs(k: Keys, log: seq<Sent>): (inputs: set<seq<Byte>>)
    requires KeysOk(k)
  {
    set n | 0 <= n < |log| :: MacInput(Clear(log[n].packet), TextFor(k, log[n]), Roc(log[n].index))
  }

  /**
   The same keys with a digest that is all ones for what the sender authenticates and all zeros for everything else.
   */
  function WithIdealDigest(k: Keys, log: seq<Sent>): (k': Keys)
    requires KeysOk(k)
    ensures KeysOk(k') && k' == k.(mac := k'.mac, gmac := k'.gmac)
  {
    var inputs := Inputs(k, log);
    k.(mac := (data, n) => if data in inputs then 1 else 0)
  }

  /** Keys that differ in the tags alone make the same ciphertexts. */
  lemma SameText(k: Keys, k': Keys, e: Sent)
    requires KeysOk(k) && k' == k.(mac := k'.mac, gmac := k'.gmac)
    ensures KeysOk(k') && TextFor(k', e) == TextFor(k, e)
  {
    var (iv, data) := (Vector(k, e.index), Body(e.packet));
    assert Vector(k', e.index) == iv;
    forall n | 0 <= n < |data| ensures MaskedByte(k', iv, data[n], n) == MaskedByte(k, iv, data[n], n) {}
    assert Masked(k', iv, data) == Masked(k, iv, data);
  }

  lemma DigestIs(k: Keys, log: seq<Sent>, i: Index, header: seq<Byte>, text: seq<Byte>)
    requires KeysOk(k) && !k.profile.AeadAes128Gcm?
    ensures var tag := Tag(WithIdealDigest(k, log), i, header, text);
            tag != [] && tag[0] == if MacInput(header, text, Roc(i)) in Inputs(k, log) then 1 else 0
  {
  }

  lemma InputIsLogged(k: Keys, log: seq<Sent>, i: Index, header: seq<Byte>, text: seq<Byte>)
    requires KeysOk(k) && !k.profile.AeadAes128Gcm? && LogOk(log) && MacInput(header, text, Roc(i)) in Inputs(k, log)
    ensures InLog(WithIdealDigest(k, log), log, i, header, text)
  {
    var n :| 0 <= n < |log|
             && MacInput(header, text, Roc(i)) == MacInput(Clear(log[n].packet), TextFor(k, log[n]), Roc(log[n].index));
    SameText(k, WithIdealDigest(k, log), log[n]);
    assert SentOk(log[n]);
    assert SameInput(WithIdealDigest(k, log), log[n], i, header, text);
  }

  /** The digest stands at the end of the body, whatever the length of the MKI. */
  lemma DigestAtEnd(k: Keys, text: seq<Byte>, tag: seq<Byte>, mki: seq<Byte>, mkiLen: nat)
    requires !k.profile.AeadAes128Gcm? && |tag| == TagLen(k.profile)
    requires TagLen(k.profile) + mkiLen <= |text + Trailer(k, tag, mki)|
    ensures TagOf(k, text + Trailer(k, tag, mki), mkiLen) == tag
  {
  }

  lemma BodyUnforged(k: Keys, log: seq<Sent>, n: nat, mki: seq<Byte>, header: Rtp.Header, padding: bool)
    requires KeysOk(k) && !k.profile.AeadAes128Gcm? && LogOk(log) && n < |log|
    ensures var k' := WithIdealDigest(k, log);
            var (e, text) := (log[n], TextFor(k', log[n]));
            Unforged(k', log, header, padding, text + Trailer(k', Tag(k', e.index, Clear(e.packet), text), mki))
  {
    var k' := WithIdealDigest(k, log);
    var (e, text) := (log[n], TextFor(k', log[n]));
    var tag := Tag(k', e.index, Clear(e.packet), text);
    var body := text + Trailer(k', tag, mki);
    SameText(k, k', e);
    DigestIs(k, log, e.index, Clear(e.packet), text);
    forall i: Index, mkiLen: nat | Authentic(k', i, header, padding, body, mkiLen)
      ensures InLog(k', log, i, Rtp.HeaderBytes(header, padding), TextOf(k', body, mkiLen))
    {
      DigestAtEnd(k', text, tag, mki, mkiLen);
      DigestIs(k, log, i, Rtp.HeaderBytes(header, padding), TextOf(k', body, mkiLen));
      InputIsLogged(k, log, i, Rtp.HeaderBytes(header, padding), TextOf(k', body, mkiLen));
    }
  }

  // ----- ideal GCM tags

  /** The sender authenticates this. */
  ghost predicate Logged(k: Keys, log: seq<Sent>, nonce: seq<Byte>, aad: seq<Byte>, text: seq<Byte>)
    requires KeysOk(k)
  {
    exists n {:trigger SentOk(log[n])} ::
      0 <= n < |log| && Vector(k, log[n].index) == nonce && Clear(log[n].packet) == aad && TextFor(k, log[n]) == text
  }

  /** The body of a protected packet whose tag is all ones. */
  function GcmBody(k: Keys, e: Sent, mki: seq<Byte>): (body: seq<Byte>)
    requires KeysOk(k)
  {
    TextFor(k, e) + (Repeated(1, 16) + mki)
  }

  function Window(body: seq<Byte>, at: nat): (ws: set<seq<Byte>>)
  {
    if at + 16 <= |body| then {body[at..at + 16]} else {}
  }

  /** What stands where a receiver may look for a tag, `at` bytes into the bodies. */
  function Windows(k: Keys, log: seq<Sent>, mki: seq<Byte>, at: nat): (ws: set<seq<Byte>>)
    requires KeysOk(k)
    ensures |ws| <= |log|
  {
    if log == [] then {}
    else var m := |log| - 1; Windows(k, log[..m], mki, at) + Window(GcmBody(k, log[m], mki), at)
  }

  lemma {:induction false} WindowIn(k: Keys, log: seq<Sent>, mki: seq<Byte>, at: nat, n: nat)
    requires KeysOk(k) && n < |log| && at + 16 <= |GcmBody(k, log[n], mki)|
    ensures GcmBody(k, log[n], mki)[at..at + 16] in Windows(k, log, mki, at)
  {
    if n < |log| - 1 { WindowIn(k, log[..|log| - 1], mki, at, n); }
  }

  function Spelled(n: U64): (tag: seq<Byte>)
    ensures |tag| == 16
  {
    Be32(n / 0x1_0000_0000) + Be32(n % 0x1_0000_0000) + Zeros(8)
  }

  lemma SpelledInjective(a: U64, b: U64)
    requires Spelled(a) == Spelled(b)
    ensures a == b
  {
    assert Spelled(a)[..4] == Be32(a / 0x1_0000_0000) && Spelled(b)[..4] == Be32(b / 0x1_0000_0000);
    assert Spelled(a)[4..8] == Be32(a % 0x1_0000_0000) && Spelled(b)[4..8] == Be32(b % 0x1_0000_0000);
    Be32Injective(a / 0x1_0000_0000, b / 0x1_0000_0000);
    Be32Injective(a % 0x1_0000_0000, b % 0x1_0000_0000);
  }

  function Spellings(n: U64): (tags: set<seq<Byte>>) { set i: U64 | 0 <= i < n :: Spelled(i) }

  lemma {:induction false} SpellingsCount(n: U64)
    ensures |Spellings(n)| == n
  {
    if n > 0 {
      SpellingsCount(n - 1);
      assert Spellings(n) == Spellings(n - 1) + {Spelled(n - 1)};
      if Spelled(n - 1) in Spellings(n - 1) {
        var i: U64 :| 0 <= i < n - 1 && Spelled(i) == Spelled(n - 1);
        SpelledInjective(i, n - 1);
      }
    }
  }

  /** There are more tags than packets, so one of them stands nowhere `at` bytes into a body. */
  lemma UnusedExists(k: Keys, log: seq<Sent>, mki: seq<Byte>, at: nat) returns (tag: seq<Byte>)
    requires KeysOk(k) && |log| <= SPAN
    ensures |tag| == 16 && tag !in Windows(k, log, mki, at)
  {
    var ws, tags := Windows(k, log, mki, at), Spellings(|log| + 1);
    SpellingsCount(|log| + 1);
    if tags <= ws {
      Modular.SubsetCount(tags, ws);
    } else {
      tag :| tag in tags && tag !in ws;
    }
  }

  ghost predicate Unused(k: Keys, log: seq<Sent>, mki: seq<Byte>, at: nat, tag: seq<Byte>)
    requires KeysOk(k)
  {
    |tag| == 16 && tag !in Windows(k, log, mki, at)
  }

  ghost function UnusedTag(k: Keys, log: seq<Sent>, mki: seq<Byte>, at: nat): (tag: seq<Byte>)
    requires KeysOk(k) && |log| <= SPAN
    ensures Unused(k, log, mki, at, tag)
  {
    assert exists tag :: Unused(k, log, mki, at, tag) by {
      var t := UnusedExists(k, log, mki, at);
      assert Unused(k, log, mki, at, t);
    }
    var tag :| Unused(k, log, mki, at, tag);
    tag
  }

  ghost function IdealByte(k: Keys, log: seq<Sent>, mki: seq<Byte>, nonce: seq<Byte>, aad: seq<Byte>, text: seq<Byte>,
                           n: nat): (b: Byte)
    requires KeysOk(k) && |log| <= SPAN
  {
    if Logged(k, log, nonce, aad, text) then 1 else if n < 16 then UnusedTag(k, log, mki, |text|)[n] else 0
  }

  /**
   The same keys with a GCM tag that is all ones for what the sender authenticates, and for everything else a tag that
   follows such a text in no body of the sender.
   */
  ghost function WithIdealGcm(k: Keys, log: seq<Sent>, mki: seq<Byte>): (k': Keys)
    requires KeysOk(k) && |log| <= SPAN
    ensures KeysOk(k') && k' == k.(mac := k'.mac, gmac := k'.gmac)
  {
    k.(gmac := (nonce, aad, text, n) => IdealByte(k, log, mki, nonce, aad, text, n))
  }

  lemma GcmTagIs(k: Keys, log: seq<Sent>, mki: seq<Byte>, i: Index, aad: seq<Byte>, text: seq<Byte>)
    requires KeysOk(k) && k.profile.AeadAes128Gcm? && |log| <= SPAN
    ensures Tag(WithIdealGcm(k, log, mki), i, aad, text)
            == if Logged(k, log, Vector(k, i), aad, text) then Repeated(1, 16) else UnusedTag(k, log, mki, |text|)
  {
    var k' := WithIdealGcm(k, log, mki);
    assert Vector(k', i) == Vector(k, i);
    forall n: nat | n < 16
      ensures GmacByte(k', Vector(k', i), aad, text, n) == IdealByte(k, log, mki, Vector(k, i), aad, text, n)
    {}
  }

  lemma LoggedIsInLog(k: Keys, k': Keys, log: seq<Sent>, i: Index, aad: seq<Byte>, text: seq<Byte>)
    requires KeysOk(k) && k.profile.AeadAes128Gcm? && k' == k.(mac := k'.mac, gmac := k'.gmac)
    requires LogOk(log) && Logged(k, log, Vector(k, i), aad, text)
    ensures KeysOk(k') && InLog(k', log, i, aad, text)
  {
    var n :| 0 <= n < |log| && Vector(k, log[n].index) == Vector(k, i) && Clear(log[n].packet) == aad
             && TextFor(k, log[n]) == text;
    SameText(k, k', log[n]);
    assert SentOk(log[n]);
    assert SameInput(k', log[n], i, aad, text);
  }

  lemma GcmBodyIs(k: Keys, log: seq<Sent>, mki: seq<Byte>, n: nat)
    requires KeysOk(k) && k.profile.AeadAes128Gcm? && |log| <= SPAN && LogOk(log) && n < |log|
    ensures var (k', e) := (WithIdealGcm(k, log, mki), log[n]);
            var text := TextFor(k', e);
            text + Trailer(k', Tag(k', e.index, Clear(e.packet), text), mki) == GcmBody(k, e, mki)
  {
    var (k', e) := (WithIdealGcm(k, log, mki), log[n]);
    assert SentOk(e);
    SameText(k, k', e);
    assert Logged(k, log, Vector(k, e.index), Clear(e.packet), TextFor(k, e));
    GcmTagIs(k, log, mki, e.index, Clear(e.packet), TextFor(k, e));
  }

  /** A tag that is right at any index and MKI length is the tag of something the sender authenticated. */
  lemma GcmAuthentic(k: Keys, k': Keys, log: seq<Sent>, mki: seq<Byte>, n: nat, body: seq<Byte>, i: Index,
                     aad: seq<Byte>, mkiLen: nat, text: seq<Byte>)
    requires KeysOk(k) && k.profile.AeadAes128Gcm? && |log| <= SPAN && LogOk(log) && n < |log|
    requires k' == WithIdealGcm(k, log, mki) && body == GcmBody(k, log[n], mki)
    requires 16 + mkiLen <= |body| && text == TextOf(k', body, mkiLen)
    requires TagOf(k', body, mkiLen) == Tag(k', i, aad, text)
    ensures InLog(k', log, i, aad, text)
  {
    GcmTagIs(k, log, mki, i, aad, text);
    WindowIn(k, log, mki, |text|, n);
    LoggedIsInLog(k, k', log, i, aad, text);
  }

  lemma GcmUnforged(k: Keys, k': Keys, log: seq<Sent>, mki: seq<Byte>, n: nat, header: Rtp.Header, padding: bool)
    requires KeysOk(k) && k.profile.AeadAes128Gcm? && |log| <= SPAN && LogOk(log) && n < |log|
    requires k' == WithIdealGcm(k, log, mki)
    ensures Unforged(k', log, header, padding, GcmBody(k, log[n], mki))
  {
    var (body, aad) := (GcmBody(k, log[n], mki), Rtp.HeaderBytes(header, padding));
    forall i: Index, mkiLen: nat | Authentic(k', i, header, padding, body, mkiLen)
      ensures InLog(k', log, i, aad, TextOf(k', body, mkiLen))
    {
      GcmAuthentic(k, k', log, mki, n, body, i, aad, mkiLen, TextOf(k', body, mkiLen));
    }
  }

  // ----- any profile

  ghost function WithIdealTag(k: Keys, log: seq<Sent>, mki: seq<Byte>): (k': Keys)
    requires KeysOk(k) && |log| <= SPAN
    ensures KeysOk(k') && k' == k.(mac := k'.mac, gmac := k'.gmac)
  {
    if k.profile.AeadAes128Gcm? then WithIdealGcm(k, log, mki) else WithIdealDigest(k, log)
  }

  lemma WireIsGenuine(k: Keys, log: seq<Sent>, mki: seq<Byte>, n: nat)
    requires KeysOk(k) && LogOk(log) && |log| <= SPAN && n < |log|
    ensures var k' := WithIdealTag(k, log, mki); Genuine(k', log, Wire(k', log[n], mki))
  {
    var (k', e) := (WithIdealTag(k, log, mki), log[n]);
    assert SentOk(e);
    WireParses(k', e, mki);
    var text := TextFor(k', e);
    var body := text + Trailer(k', Tag(k', e.index, Clear(e.packet), text), mki);
    if k.profile.AeadAes128Gcm? {
      GcmBodyIs(k, log, mki, n);
      GcmUnforged(k, k', log, mki, n, e.packet.header, e.packet.padding != 0);
    } else {
      BodyUnforged(k, log, n, mki, e.packet.header, e.packet.padding != 0);
    }
    assert Wire(k', e, mki)[|Clear(e.packet)|..] == body;
  }

  /**
   For every profile, log and MKI there are keys, the same but for the tags, under which every datagram of the sender is
   genuine: the premise of the runs can be met.
   */
  lemma IdealTagIsGenuine(k: Keys, log: seq<Sent>, mki: seq<Byte>)
    requires KeysOk(k) && LogOk(log) && |log| <= SPAN
    ensures AllGenuine(WithIdealTag(k, log, mki), log, mki)
  {
    var k' := WithIdealTag(k, log, mki);
    forall n | 0 <= n < |log| ensures Genuine(k', log, Wire(k', log[n], mki)) { WireIsGenuine(k, log, mki, n); }
  }

  /** Under such keys every sender is received, over any loss, repetition, reordering in the window, and forgeries. */
  lemma IdealRun(k: Keys, k': Keys, packets: seq<Rtp.Packet>, first: U16, log: seq<Sent>, mki: seq<Byte>,
                 arrivals: seq<Arrival>, history: seq<nat>)
    requires KeysOk(k) && Numbered(packets, first) && first + |packets| <= SPAN
    requires log == SenderLog(packets, first) && k' == WithIdealTag(k, log, mki) && ArrivalsOk(k', log, arrivals)
    requires history == Copies(arrivals) && InRange(log, history) && InWindow(log, history)
    ensures var (r, got) := Run(k', |mki|, Datagrams(k', log, mki, arrivals));
            Returned(got, packets, history) && Stands(log, history, r.index)
  {
    SenderLogOk(packets, first);
    IdealTagIsGenuine(k, log, mki);
    EndToEnd(k', packets, first, log, |mki|, mki, arrivals, history);
  }
}

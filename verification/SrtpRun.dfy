/**
 SRTP over a network that loses, repeats, reorders and forges datagrams. The tags are ideal: a datagram carries a
 valid tag only for something the sender authenticated.
 */
module SrtpRun {
  import opened Wrappers
  import opened Bytes
  import opened SrtpIndex
  import opened SrtpIv
  import opened Srtp
  import opened SrtpContext
  import Rtp

  /** A packet the sender protected, and the index it did so at. */
  datatype Sent = Sent(index: Index, packet: Rtp.Packet)

  predicate SentOk(e: Sent) { Rtp.Encodable(e.packet.header) && Sequence(e.index) == e.packet.header.sequence }

  ghost predicate LogOk(log: seq<Sent>) { forall n {:trigger SentOk(log[n])} | 0 <= n < |log| :: SentOk(log[n]) }

  predicate Distinct(log: seq<Sent>)
  {
    forall a, b {:trigger log[a], log[b]} | 0 <= a < b < |log| :: log[a].index != log[b].index
  }

  function TextFor(k: Keys, e: Sent): (text: seq<Byte>)
    requires KeysOk(k)
  {
    Crypt(k, e.index, Body(e.packet))
  }

  function Wire(k: Keys, e: Sent, mki: seq<Byte>): (raw: seq<Byte>)
    requires KeysOk(k)
  {
    Sealed(k, e.index, e.packet, mki)
  }

  // ----- the ideal tag

  /** Authenticating `header` and `text` at index `i` is authenticating the same input as for `e`. */
  predicate SameInput(k: Keys, e: Sent, i: Index, header: seq<Byte>, text: seq<Byte>)
    requires KeysOk(k)
  {
    if k.profile.AeadAes128Gcm? then Vector(k, e.index) == Vector(k, i) && Clear(e.packet) == header
      && TextFor(k, e) == text
    else MacInput(Clear(e.packet), TextFor(k, e), Roc(e.index)) == MacInput(header, text, Roc(i))
  }

  ghost predicate InLog(k: Keys, log: seq<Sent>, i: Index, header: seq<Byte>, text: seq<Byte>)
    requires KeysOk(k)
  {
    exists n {:trigger SentOk(log[n])} :: 0 <= n < |log| && SameInput(k, log[n], i, header, text)
  }

  /** No index and no MKI length make the datagram authentic for an input the sender did not authenticate. */
  ghost predicate Unforged(k: Keys, log: seq<Sent>, header: Rtp.Header, padding: bool, body: seq<Byte>)
    requires KeysOk(k)
  {
    forall i: Index, mkiLen: nat {:trigger Authentic(k, i, header, padding, body, mkiLen)} ::
      Authentic(k, i, header, padding, body, mkiLen)
      ==> InLog(k, log, i, Rtp.HeaderBytes(header, padding), TextOf(k, body, mkiLen))
  }

  ghost predicate Genuine(k: Keys, log: seq<Sent>, raw: seq<Byte>)
    requires KeysOk(k)
  {
    var p := Rtp.Parse(raw);
    p.Ok? ==> Unforged(k, log, p.value.header, p.value.padding, raw[p.value.length..])
  }

  // ----- an authenticated input is one packet

  lemma SameHeader(h: Rtp.Header, padding: bool, text: seq<Byte>, h': Rtp.Header, padding': bool, text': seq<Byte>)
    requires Rtp.Encodable(h) && Rtp.Encodable(h')
    requires Rtp.HeaderBytes(h, padding) + text == Rtp.HeaderBytes(h', padding') + text'
    ensures h == h' && padding == padding' && text == text'
  {
    Rtp.ParseInvertsWrite(h, padding, text);
    Rtp.ParseInvertsWrite(h', padding', text');
    var b := Rtp.HeaderBytes(h, padding);
    assert (b + text)[|b|..] == text && (b + text')[|b|..] == text';
  }

  lemma SameMacInput(a: seq<Byte>, roc: U32, b: seq<Byte>, roc': U32)
    requires a + Be32(roc) == b + Be32(roc')
    ensures a == b && roc == roc'
  {
    var m := a + Be32(roc);
    assert m[..|a|] == a && (b + Be32(roc'))[..|b|] == b;
    assert m[|a|..] == Be32(roc) && (b + Be32(roc'))[|b|..] == Be32(roc');
    Be32Injective(roc, roc');
  }

  /** Header, padding bit, ciphertext and the full 48-bit index are all pinned down by what was authenticated. */
  lemma InputDetermines(k: Keys, e: Sent, i: Index, h: Rtp.Header, padding: bool, text: seq<Byte>)
    requires KeysOk(k) && SentOk(e) && Rtp.Encodable(h) && Sequence(i) == h.sequence
    requires SameInput(k, e, i, Rtp.HeaderBytes(h, padding), text)
    ensures h == e.packet.header && padding == (e.packet.padding != 0) && text == TextFor(k, e) && i == e.index
  {
    var header := Rtp.HeaderBytes(h, padding);
    if k.profile.AeadAes128Gcm? {
      if i != e.index { NoncesDistinct(k.salt, k.ssrc, i, k.ssrc, e.index); }
    } else {
      SameMacInput(Clear(e.packet) + TextFor(k, e), Roc(e.index), header + text, Roc(i));
    }
    SameHeader(h, padding, text, e.packet.header, e.packet.padding != 0, TextFor(k, e));
  }

  /** What opens is a packet that was sent, at the index it was sent with. */
  lemma OpenedIsSent(k: Keys, log: seq<Sent>, i: Index, h: Rtp.Header, padding: bool, body: seq<Byte>, mkiLen: nat)
    returns (n: nat)
    requires KeysOk(k) && LogOk(log) && Rtp.Encodable(h) && Sequence(i) == h.sequence
    requires Unforged(k, log, h, padding, body) && Authentic(k, i, h, padding, body, mkiLen)
    ensures n < |log| && i == log[n].index && h == log[n].packet.header && TextOf(k, body, mkiLen) == TextFor(k, log[n])
    ensures Opened(k, i, h, padding, body, mkiLen) == Ok(log[n].packet)
  {
    var text := TextOf(k, body, mkiLen);
    assert InLog(k, log, i, Rtp.HeaderBytes(h, padding), text);
    var m :| 0 <= m < |log| && SameInput(k, log[m], i, Rtp.HeaderBytes(h, padding), text);
    assert SentOk(log[m]);
    InputDetermines(k, log[m], i, h, padding, text);
    CryptTwice(k, i, Body(log[m].packet));
    FinishBody(log[m].packet);
    n := m;
  }

  // ----- one delivery

  /** A datagram arrives. What does not parse as RTP never reaches the context. */
  function Deliver(k: Keys, r: Receiver, advertised: nat, raw: seq<Byte>): (o: (Receiver, Option<Rtp.Packet>))
    requires KeysOk(k)
  {
    match Rtp.Parse(raw)
    case Err(_) => (r, None)
    case Ok(p) =>
      var (r', result) := Unprotected(k, r, advertised, p.header, p.padding, raw[p.length..]);
      (r', if result.Ok? then Some(result.value) else None)
  }

  /** Any success among the candidates is a packet sent with the estimated index. */
  lemma {:induction false} TriedIsSent(k: Keys, log: seq<Sent>, r: Receiver, h: Rtp.Header, padding: bool,
                                       body: seq<Byte>, lengths: seq<nat>, at: nat) returns (n: nat)
    requires KeysOk(k) && LogOk(log) && Rtp.Encodable(h) && Unforged(k, log, h, padding, body) && at < |lengths|
    requires TryFrom(k, r, h, padding, body, lengths, at).1.Ok?
    ensures n < |log| && TryFrom(k, r, h, padding, body, lengths, at).1 == Ok(log[n].packet)
    ensures log[n].index == Estimated(r.index, h.sequence)
    ensures TryFrom(k, r, h, padding, body, lengths, at).0.index
            == Update(r.index, Sequence(log[n].index), Roc(log[n].index))
    decreases |lengths| - at
  {
    var i := Estimated(r.index, h.sequence);
    if Opened(k, i, h, padding, body, lengths[at]).Ok? {
      n := OpenedIsSent(k, log, i, h, padding, body, lengths[at]);
    } else {
      n := TriedIsSent(k, log, r, h, padding, body, lengths, at + 1);
    }
  }

  lemma DeliveredIsSent(k: Keys, log: seq<Sent>, r: Receiver, advertised: nat, raw: seq<Byte>) returns (n: nat)
    requires KeysOk(k) && LogOk(log) && Genuine(k, log, raw) && Deliver(k, r, advertised, raw).1.Some?
    ensures n < |log| && Deliver(k, r, advertised, raw).1 == Some(log[n].packet)
    ensures Deliver(k, r, advertised, raw).0.index == Update(r.index, Sequence(log[n].index), Roc(log[n].index))
  {
    var p := Rtp.Parse(raw).value;
    Rtp.WriteInvertsParse(raw);
    n := TriedIsSent(k, log, r, p.header, p.padding, raw[p.length..], Candidates(r.mode, advertised), 0);
  }

  // ----- safety of every run

  /** Everything the receiver returned for a list of datagrams, in order. */
  function Run(k: Keys, advertised: nat, raws: seq<seq<Byte>>): (o: (Receiver, seq<Rtp.Packet>))
    requires KeysOk(k)
  {
    if raws == [] then (Receiver(INITIAL, None), [])
    else
      var (r, got) := Run(k, advertised, raws[..|raws| - 1]);
      var (r', one) := Deliver(k, r, advertised, raws[|raws| - 1]);
      (r', if one.Some? then got + [one.value] else got)
  }

  /** Positions in the log. */
  predicate InRange(log: seq<Sent>, ns: seq<nat>) { forall j | 0 <= j < |ns| :: ns[j] < |log| }

  /** The largest index among some packets of the log. */
  function MaxIndex(log: seq<Sent>, ns: seq<nat>): (i: Index)
    requires ns != [] && InRange(log, ns)
  {
    var m := |ns| - 1;
    if m == 0 then log[ns[0]].index
    else
      var before := MaxIndex(log, ns[..m]);
      if log[ns[m]].index > before then log[ns[m]].index else before
  }

  lemma {:induction false} MaxIndexIsMax(log: seq<Sent>, ns: seq<nat>) returns (at: nat)
    requires ns != [] && InRange(log, ns)
    ensures forall j | 0 <= j < |ns| :: log[ns[j]].index <= MaxIndex(log, ns)
    ensures at < |ns| && log[ns[at]].index == MaxIndex(log, ns)
  {
    var m := |ns| - 1;
    at := m;
    if m > 0 {
      var before := MaxIndexIsMax(log, ns[..m]);
      forall j | 0 <= j < |ns| ensures log[ns[j]].index <= MaxIndex(log, ns) {
        if j < m { assert ns[..m][j] == ns[j]; }
      }
      if log[ns[m]].index <= MaxIndex(log, ns[..m]) { at := before; }
    }
  }

  /** The state of a receiver that has accepted these packets. */
  ghost predicate Stands(log: seq<Sent>, ns: seq<nat>, s: State)
  {
    && InRange(log, ns)
    && if ns == [] then s == INITIAL else s.last.Some? && Highest(s) == MaxIndex(log, ns)
  }

  lemma StandsMore(log: seq<Sent>, ns: seq<nat>, s: State, n: nat)
    requires Stands(log, ns, s) && n < |log|
    ensures Stands(log, ns + [n], Update(s, Sequence(log[n].index), Roc(log[n].index)))
  {
    UpdateIsMax(s, log[n].index);
    assert (ns + [n])[..|ns|] == ns;
  }

  /**
   Safety: whatever datagrams arrive, in whatever order, each packet returned is one the sender sent, and the rollover
   counter and last sequence number stand for the largest 48-bit index accepted so far.
   */
  lemma {:induction false} RunIsSafe(k: Keys, log: seq<Sent>, advertised: nat, raws: seq<seq<Byte>>)
    returns (ns: seq<nat>)
    requires KeysOk(k) && LogOk(log) && forall j | 0 <= j < |raws| :: Genuine(k, log, raws[j])
    ensures var (r, got) := Run(k, advertised, raws);
            && Stands(log, ns, r.index)
            && |got| == |ns| && forall j | 0 <= j < |ns| :: got[j] == log[ns[j]].packet
  {
    ns := [];
    if raws != [] {
      var m := |raws| - 1;
      var before := RunIsSafe(k, log, advertised, raws[..m]);
      var r := Run(k, advertised, raws[..m]).0;
      if Deliver(k, r, advertised, raws[m]).1.Some? {
        var n := DeliveredIsSent(k, log, r, advertised, raws[m]);
        StandsMore(log, before, r.index, n);
        ns := before + [n];
      } else {
        ns := before;
      }
    }
  }

  // ----- acceptance

  /** The body of a protected packet opens at its own index, with its own MKI length. */
  lemma WireParses(k: Keys, e: Sent, mki: seq<Byte>)
    requires KeysOk(k) && SentOk(e)
    ensures var p := Rtp.Parse(Wire(k, e, mki));
            && p == Ok(Rtp.Parsed(e.packet.header, e.packet.padding != 0, |Clear(e.packet)|))
            && var body := Wire(k, e, mki)[p.value.length..];
               && |body| == |TextFor(k, e)| + TagLen(k.profile) + |mki|
               && Opened(k, e.index, e.packet.header, e.packet.padding != 0, body, |mki|) == Ok(e.packet)
  {
    var text := TextFor(k, e);
    var body := text + Trailer(k, Tag(k, e.index, Clear(e.packet), text), mki);
    Rtp.ParseInvertsWrite(e.packet.header, e.packet.padding != 0, body);
    assert Wire(k, e, mki)[|Clear(e.packet)|..] == body;
    OpenSealed(k, e.index, e.packet, mki);
  }

  /** The wrong MKI length does not open a genuine packet. */
  lemma WrongLengthFails(k: Keys, log: seq<Sent>, n: nat, body: seq<Byte>, mkiLen: nat, wrong: nat)
    requires KeysOk(k) && LogOk(log) && Distinct(log) && n < |log| && wrong != mkiLen
    requires |body| == |TextFor(k, log[n])| + TagLen(k.profile) + mkiLen
    requires Unforged(k, log, log[n].packet.header, log[n].packet.padding != 0, body)
    ensures Opened(k, log[n].index, log[n].packet.header, log[n].packet.padding != 0, body, wrong).Err?
  {
    var e := log[n];
    assert SentOk(e);
    if Authentic(k, e.index, e.packet.header, e.packet.padding != 0, body, wrong) {
      var m := OpenedIsSent(k, log, e.index, e.packet.header, e.packet.padding != 0, body, wrong);
      assert false;
    }
  }

  /** The candidates before the right length fail, so the right one decides. */
  lemma TryReaches(k: Keys, r: Receiver, h: Rtp.Header, padding: bool, body: seq<Byte>, lengths: seq<nat>, n: nat,
                   p: Rtp.Packet)
    requires KeysOk(k) && n < |lengths| && n <= 1
    requires Tried(k, r.index, h, padding, body, lengths[n]) == Ok(p)
    requires n == 1 ==> Tried(k, r.index, h, padding, body, lengths[0]).Err?
    ensures TryFrom(k, r, h, padding, body, lengths, 0)
            == (Receiver(Accept(r.index, h.sequence), Some(lengths[n] > 0)), Ok(p))
  {
    TryFound(k, r, h, padding, body, lengths, n, p);
    if n == 1 { TryNext(k, r, h, padding, body, lengths, 0); }
  }

  lemma TryFound(k: Keys, r: Receiver, h: Rtp.Header, padding: bool, body: seq<Byte>, lengths: seq<nat>, n: nat,
                 p: Rtp.Packet)
    requires KeysOk(k) && n < |lengths| && Tried(k, r.index, h, padding, body, lengths[n]) == Ok(p)
    ensures TryFrom(k, r, h, padding, body, lengths, n)
            == (Receiver(Accept(r.index, h.sequence), Some(lengths[n] > 0)), Ok(p))
  {
  }

  lemma TryNext(k: Keys, r: Receiver, h: Rtp.Header, padding: bool, body: seq<Byte>, lengths: seq<nat>, n: nat)
    requires KeysOk(k) && n + 1 < |lengths| && Tried(k, r.index, h, padding, body, lengths[n]).Err?
    ensures TryFrom(k, r, h, padding, body, lengths, n) == TryFrom(k, r, h, padding, body, lengths, n + 1)
  {
  }

  /** A genuine packet whose index is estimated right is returned, and settles the MKI mode on what the sender does. */
  lemma Accepts(k: Keys, log: seq<Sent>, r: Receiver, advertised: nat, n: nat, mki: seq<Byte>)
    requires KeysOk(k) && LogOk(log) && Distinct(log) && n < |log| && Genuine(k, log, Wire(k, log[n], mki))
    requires Estimated(r.index, log[n].packet.header.sequence) == log[n].index
    requires |mki| in Candidates(r.mode, advertised)
    ensures Deliver(k, r, advertised, Wire(k, log[n], mki))
            == (Receiver(Update(r.index, Sequence(log[n].index), Roc(log[n].index)), Some(|mki| > 0)),
              Some(log[n].packet))
  {
    var e, raw := log[n], Wire(k, log[n], mki);
    assert SentOk(e);
    WireParses(k, e, mki);
    var body := raw[|Clear(e.packet)|..];
    var lengths := Candidates(r.mode, advertised);
    var at := if lengths[0] == |mki| then 0 else 1;
    if at == 1 { WrongLengthFails(k, log, n, body, |mki|, lengths[0]); }
    TryReaches(k, r, e.packet.header, e.packet.padding != 0, body, lengths, at, e.packet);
  }

  // ----- lossy, repeating, reordering delivery

  /** The first packet to arrive has rollover counter zero; each later one lies within 2^15 of the highest so far. */
  predicate InWindow(log: seq<Sent>, history: seq<nat>)
    requires InRange(log, history)
  {
    history == [] ||
      var m := |history| - 1;
      && InWindow(log, history[..m])
      && if m == 0 then Roc(log[history[0]].index) == 0
         else -0x8000 < log[history[m]].index - MaxIndex(log, history[..m]) < 0x8000
  }

  function Wires(k: Keys, log: seq<Sent>, mki: seq<Byte>, history: seq<nat>): (raws: seq<seq<Byte>>)
    requires KeysOk(k) && InRange(log, history)
  {
    if history == [] then []
    else var m := |history| - 1; Wires(k, log, mki, history[..m]) + [Wire(k, log[history[m]], mki)]
  }

  lemma RunMore(k: Keys, advertised: nat, raws: seq<seq<Byte>>, raw: seq<Byte>)
    requires KeysOk(k)
    ensures var (r, got) := Run(k, advertised, raws);
            var (r', one) := Deliver(k, r, advertised, raw);
            Run(k, advertised, raws + [raw]) == (r', if one.Some? then got + [one.value] else got)
  {
    assert (raws + [raw])[..|raws|] == raws;
  }

  ghost predicate AllGenuine(k: Keys, log: seq<Sent>, mki: seq<Byte>)
    requires KeysOk(k)
  {
    forall n {:trigger SentOk(log[n])} | 0 <= n < |log| :: Genuine(k, log, Wire(k, log[n], mki))
  }

  function PacketsOf(log: seq<Sent>, history: seq<nat>): (ps: seq<Rtp.Packet>)
    requires InRange(log, history)
  {
    if history == [] then [] else var m := |history| - 1; PacketsOf(log, history[..m]) + [log[history[m]].packet]
  }

  /** The state before the next arrival estimates its index right. */
  lemma NextEstimate(log: seq<Sent>, history: seq<nat>, s: State)
    requires LogOk(log) && InRange(log, history) && history != [] && InWindow(log, history)
    requires Stands(log, history[..|history| - 1], s)
    ensures var e := log[history[|history| - 1]]; Estimated(s, e.packet.header.sequence) == e.index
  {
    var m := |history| - 1;
    var e := log[history[m]];
    assert SentOk(e);
    if m > 0 { EstimateExact(s, e.index); }
    assert IndexOf(Roc(e.index), Sequence(e.index)) == e.index;
  }

  lemma ModeAllows(n: nat, advertised: nat, mode: Option<bool>)
    requires (n == advertised || n == 0) && (mode == None || mode == Some(n > 0))
    ensures n in Candidates(mode, advertised)
  {
  }

  lemma NextArrival(k: Keys, log: seq<Sent>, advertised: nat, mki: seq<Byte>, history: seq<nat>, r: Receiver)
    requires KeysOk(k) && LogOk(log) && Distinct(log) && AllGenuine(k, log, mki)
             && |mki| in Candidates(r.mode, advertised)
    requires InRange(log, history) && history != [] && InWindow(log, history)
             && Stands(log, history[..|history| - 1], r.index)
    ensures var e := log[history[|history| - 1]];
            var (r', one) := Deliver(k, r, advertised, Wire(k, e, mki));
            one == Some(e.packet) && r'.mode == Some(|mki| > 0) && Stands(log, history, r'.index)
  {
    var m := |history| - 1;
    var before, n := history[..m], history[m];
    Snoc(history);
    NextEstimate(log, history, r.index);
    assert SentOk(log[n]);
    Accepts(k, log, r, advertised, n, mki);
    StandsMore(log, before, r.index, n);
  }

  /**
   Recovery: in every history of losses, repetitions and reorderings that keeps within the window, each arrival is
   returned as the packet sent, and the receiver's state is the maximum index that arrived.
   */
  lemma {:induction false} NetworkRun(k: Keys, log: seq<Sent>, advertised: nat, mki: seq<Byte>, history: seq<nat>)
    requires KeysOk(k) && LogOk(log) && Distinct(log) && (|mki| == advertised || |mki| == 0)
    requires InRange(log, history) && InWindow(log, history) && AllGenuine(k, log, mki)
    ensures var (r, got) := Run(k, advertised, Wires(k, log, mki, history));
            && got == PacketsOf(log, history) && Stands(log, history, r.index)
            && r.mode == if history == [] then None else Some(|mki| > 0)
  {
    if history != [] {
      var m := |history| - 1;
      var before := history[..m];
      NetworkRun(k, log, advertised, mki, before);
      var raws := Wires(k, log, mki, before);
      var r := Run(k, advertised, raws).0;
      ModeAllows(|mki|, advertised, r.mode);
      NextArrival(k, log, advertised, mki, history, r);
      RunMore(k, advertised, raws, Wire(k, log[history[m]], mki));
    }
  }

  // ----- forgeries in between

  /** No index and no MKI length make the tag of the datagram right. */
  ghost predicate Forged(k: Keys, raw: seq<Byte>)
    requires KeysOk(k)
  {
    var p := Rtp.Parse(raw);
    p.Ok? ==> forall i: Index, mkiLen: nat ::
      !Authentic(k, i, p.value.header, p.value.padding, raw[p.value.length..], mkiLen)
  }

  lemma {:induction false} TryFails(k: Keys, r: Receiver, h: Rtp.Header, padding: bool, body: seq<Byte>,
                                    lengths: seq<nat>, n: nat)
    requires KeysOk(k) && n < |lengths|
    requires forall i: Index, mkiLen: nat :: !Authentic(k, i, h, padding, body, mkiLen)
    ensures TryFrom(k, r, h, padding, body, lengths, n).1.Err?
    decreases |lengths| - n
  {
    if n + 1 < |lengths| { TryFails(k, r, h, padding, body, lengths, n + 1); }
  }

  lemma ForgedIsIgnored(k: Keys, r: Receiver, advertised: nat, raw: seq<Byte>)
    requires KeysOk(k) && Forged(k, raw)
    ensures Deliver(k, r, advertised, raw) == (r, None)
  {
    var p := Rtp.Parse(raw);
    if p.Ok? {
      TryFails(k, r, p.value.header, p.value.padding, raw[p.value.length..], Candidates(r.mode, advertised), 0);
    }
  }

  /** What the network hands over: a copy of a packet of the log, or something the sender had no part in. */
  datatype Arrival = Copy(n: nat) | Forgery(raw: seq<Byte>)

  ghost predicate ArrivalsOk(k: Keys, log: seq<Sent>, arrivals: seq<Arrival>)
    requires KeysOk(k)
  {
    forall j {:trigger arrivals[j]} | 0 <= j < |arrivals| ::
      match arrivals[j] case Copy(n) => n < |log| case Forgery(raw) => Forged(k, raw)
  }

  function Copies(arrivals: seq<Arrival>): (history: seq<nat>)
  {
    if arrivals == [] then []
    else
      var m := |arrivals| - 1;
      Copies(arrivals[..m]) + if arrivals[m].Copy? then [arrivals[m].n] else []
  }

  ghost function Datagrams(k: Keys, log: seq<Sent>, mki: seq<Byte>, arrivals: seq<Arrival>): (raws: seq<seq<Byte>>)
    requires KeysOk(k) && ArrivalsOk(k, log, arrivals)
  {
    if arrivals == [] then []
    else
      var m := |arrivals| - 1;
      var raw := match arrivals[m] case Copy(n) => Wire(k, log[n], mki) case Forgery(raw) => raw;
      Datagrams(k, log, mki, arrivals[..m]) + [raw]
  }

  lemma {:induction false} CopiesInRange(k: Keys, log: seq<Sent>, arrivals: seq<Arrival>)
    requires KeysOk(k) && ArrivalsOk(k, log, arrivals)
    ensures InRange(log, Copies(arrivals))
  {
    if arrivals != [] { CopiesInRange(k, log, arrivals[..|arrivals| - 1]); }
  }

  /** With any number of forgeries in between, a run is the run of the copies alone. */
  lemma {:induction false} ForgeriesChangeNothing(k: Keys, log: seq<Sent>, advertised: nat, mki: seq<Byte>,
                                                  arrivals: seq<Arrival>)
    requires KeysOk(k) && ArrivalsOk(k, log, arrivals)
    ensures InRange(log, Copies(arrivals))
    ensures Run(k, advertised, Datagrams(k, log, mki, arrivals))
            == Run(k, advertised, Wires(k, log, mki, Copies(arrivals)))
  {
    CopiesInRange(k, log, arrivals);
    if arrivals != [] {
      var m := |arrivals| - 1;
      var before := arrivals[..m];
      ForgeriesChangeNothing(k, log, advertised, mki, before);
      var (raws, wires) := (Datagrams(k, log, mki, before), Wires(k, log, mki, Copies(before)));
      match arrivals[m]
      case Copy(n) =>
        WiresMore(k, log, mki, Copies(before), n);
        RunMore(k, advertised, raws, Wire(k, log[n], mki));
        RunMore(k, advertised, wires, Wire(k, log[n], mki));
      case Forgery(raw) =>
        assert Copies(arrivals) == Copies(before);
        ForgedIsIgnored(k, Run(k, advertised, raws).0, advertised, raw);
        RunMore(k, advertised, raws, raw);
    }
  }

  lemma WiresMore(k: Keys, log: seq<Sent>, mki: seq<Byte>, history: seq<nat>, n: nat)
    requires KeysOk(k) && InRange(log, history) && n < |log|
    ensures Wires(k, log, mki, history + [n]) == Wires(k, log, mki, history) + [Wire(k, log[n], mki)]
  {
    assert (history + [n])[..|history|] == history;
  }

  // ----- the sender

  /** What a sender protects: packet `n` carries sequence number `first + n`, wrapped. */
  predicate Numbered(packets: seq<Rtp.Packet>, first: U16)
  {
    forall n | 0 <= n < |packets| :: Rtp.Encodable(packets[n].header) && packets[n].header.sequence == Add16(first, n)
  }

  /** The sender's log: each packet with the index `protect` used for it. */
  function SenderLog(packets: seq<Rtp.Packet>, first: U16): (log: seq<Sent>)
    ensures |log| == |packets|
  {
    seq(|packets|, n requires 0 <= n < |packets| =>
      Sent(Estimated(SrtpIndex.Sent(first, n), packets[n].header.sequence), packets[n]))
  }

  lemma SenderLogOk(packets: seq<Rtp.Packet>, first: U16)
    requires Numbered(packets, first) && first + |packets| <= SPAN
    ensures LogOk(SenderLog(packets, first)) && Distinct(SenderLog(packets, first))
    ensures forall n | 0 <= n < |packets| :: SenderLog(packets, first)[n].index == first + n
  {
    var log := SenderLog(packets, first);
    forall n | 0 <= n < |packets| ensures log[n].index == first + n && SentOk(log[n]) { SenderIndices(first, n); }
  }

  /** Arrival by arrival, the packets that were sent. */
  predicate Returned(got: seq<Rtp.Packet>, packets: seq<Rtp.Packet>, history: seq<nat>)
  {
    |got| == |history| && forall j {:trigger got[j]} | 0 <= j < |history| ::
      history[j] < |packets| && got[j] == packets[history[j]]
  }

  lemma {:induction false} PacketsReturned(log: seq<Sent>, packets: seq<Rtp.Packet>, history: seq<nat>)
    requires InRange(log, history) && |log| == |packets|
    requires forall n | 0 <= n < |log| :: log[n].packet == packets[n]
    ensures Returned(PacketsOf(log, history), packets, history)
  {
    if history != [] {
      var m := |history| - 1;
      var before := PacketsOf(log, history[..m]);
      PacketsReturned(log, packets, history[..m]);
      forall j | 0 <= j < m ensures before[j] == packets[history[j]] { assert history[..m][j] == history[j]; }
    }
  }

  lemma Delivered(k: Keys, log: seq<Sent>, packets: seq<Rtp.Packet>, advertised: nat, mki: seq<Byte>, history: seq<nat>)
    requires KeysOk(k) && LogOk(log) && Distinct(log) && (|mki| == advertised || |mki| == 0)
    requires InRange(log, history) && InWindow(log, history) && AllGenuine(k, log, mki)
    requires |log| == |packets| && forall n | 0 <= n < |log| :: log[n].packet == packets[n]
    ensures var (r, got) := Run(k, advertised, Wires(k, log, mki, history));
            Returned(got, packets, history) && Stands(log, history, r.index)
  {
    NetworkRun(k, log, advertised, mki, history);
    PacketsReturned(log, packets, history);
  }

  /**
   End to end: a sender stepping its sequence number by one, through any number of wraps below 2^48, over a network that
   loses, repeats and reorders its packets within the window and slips in any number of forgeries.
   */
  lemma EndToEnd(k: Keys, packets: seq<Rtp.Packet>, first: U16, log: seq<Sent>, advertised: nat, mki: seq<Byte>,
                 arrivals: seq<Arrival>, history: seq<nat>)
    requires KeysOk(k) && Numbered(packets, first) && first + |packets| <= SPAN && (|mki| == advertised || |mki| == 0)
    requires log == SenderLog(packets, first) && AllGenuine(k, log, mki) && ArrivalsOk(k, log, arrivals)
    requires history == Copies(arrivals) && InRange(log, history) && InWindow(log, history)
    ensures var (r, got) := Run(k, advertised, Datagrams(k, log, mki, arrivals));
            Returned(got, packets, history) && Stands(log, history, r.index)
  {
    SenderLogOk(packets, first);
    ForgeriesChangeNothing(k, log, advertised, mki, arrivals);
    Delivered(k, log, packets, advertised, mki, history);
  }
}

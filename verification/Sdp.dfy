/** Session descriptions: printing and parsing SDP text (src/sdp.rs). */
module Sdp {
  import opened Wrappers
  import opened SdpText

  datatype AddressType = Ipv4 | Ipv6

  datatype Kind = Audio | Video | Application | Image

  datatype Direction = SendRecv | SendOnly | RecvOnly | Inactive

  datatype Attribute = Attribute(key: string, value: Option<string>)

  datatype Origin = Origin(username: string, sessionId: nat, sessionVersion: nat, address: AddressType, unicast: string)

  datatype Session = Session(version: nat, origin: Origin, name: string, start: nat, stop: nat,
                             connection: Option<string>, attributes: seq<Attribute>)

  datatype Media = Media(kind: Kind, mid: string, port: nat, protocol: string, formats: seq<string>,
                         direction: Direction, attributes: seq<Attribute>, connection: Option<string>)

  datatype Description = Description(session: Session, media: seq<Media>)

  datatype Error = Malformed | Unsupported | MissingLine

  const U8_MAX: nat := 0xFF
  const U16_MAX: nat := 0xFFFF
  const U64_MAX: nat := 0xFFFF_FFFF_FFFF_FFFF

  // ----- names

  function DirectionText(d: Direction): (s: string)
  {
    match d
    case SendRecv => "sendrecv"
    case SendOnly => "sendonly"
    case RecvOnly => "recvonly"
    case Inactive => "inactive"
  }

  function DirectionOf(key: string): (d: Option<Direction>)
  {
    if key == "sendrecv" then Some(SendRecv)
    else if key == "sendonly" then Some(SendOnly)
    else if key == "recvonly" then Some(RecvOnly)
    else if key == "inactive" then Some(Inactive)
    else None
  }

  function KindText(k: Kind): (s: string)
  {
    match k
    case Audio => "audio"
    case Video => "video"
    case Application => "application"
    case Image => "image"
  }

  function KindOf(s: string): (k: Option<Kind>)
  {
    if s == "audio" then Some(Audio)
    else if s == "video" then Some(Video)
    else if s == "application" then Some(Application)
    else if s == "image" then Some(Image)
    else None
  }

  function AddressText(a: AddressType): (s: string) { if a.Ipv4? then "IP4" else "IP6" }

  /** The comparison is made in upper case, where a dotless i counts as an I. */
  function AddressOf(s: string): (a: Option<AddressType>)
  {
    if |s| == 3 && s[0] in ['I', 'i', '\U{0131}'] && s[1] in ['P', 'p'] then
      if s[2] == '4' then Some(Ipv4) else if s[2] == '6' then Some(Ipv6) else None
    else None
  }

  lemma DirectionRoundTrip(d: Direction)
    ensures DirectionOf(DirectionText(d)) == Some(d) && WordOk(DirectionText(d)) && ':' !in DirectionText(d)
  {
    match d
    case SendRecv => assert "sendrecv"[0] == 's';
    case SendOnly => assert "sendonly"[4] == 'o' && "sendrecv"[4] == 'r';
    case RecvOnly => assert "recvonly"[0] == 'r';
    case Inactive => assert "inactive"[0] == 'i';
  }

  lemma KindRoundTrip(k: Kind)
    ensures KindOf(KindText(k)) == Some(k) && WordOk(KindText(k))
  {
    match k
    case Audio =>
    case Video => assert "video"[0] == 'v' && "audio"[0] == 'a';
    case Application =>
    case Image => assert "image"[0] == 'i' && "audio"[0] == 'a' && "video"[0] == 'v';
  }

  // ----- attributes

  function AttributeText(a: Attribute): (s: string) { if a.value.Some? then a.key + ":" + a.value.value else a.key }

  function AttributeOf(s: string): (a: Attribute)
  {
    match SplitOnce(s, ':')
    case Some(r) => Attribute(r.before, Some(r.after))
    case None => Attribute(s, None)
  }

  /** One line, nothing to trim at its end. */
  predicate TextOk(s: string) { '\n' !in s && EndOk(s) }

  predicate AttributeOk(a: Attribute)
  {
    ':' !in a.key && '\n' !in a.key && if a.value.Some? then TextOk(a.value.value) else EndOk(a.key)
  }

  lemma AttributeRoundTrip(a: Attribute)
    requires AttributeOk(a)
    ensures AttributeOf(AttributeText(a)) == a && TextOk(AttributeText(a))
  {
    var s := AttributeText(a);
    if a.value.Some? {
      SplitOnceAt(a.key, ':', a.value.value);
      assert s == a.key + [':'] + a.value.value;
      if a.value.value == "" { assert s[|s| - 1] == ':'; }
    }
  }

  /** What reading the printed attributes gives. */
  function Reread(attributes: seq<Attribute>): (r: seq<Attribute>)
    ensures |r| == |attributes|
  {
    if attributes == [] then []
    else
      var m := |attributes| - 1;
      Reread(attributes[..m]) + [AttributeOf(AttributeText(attributes[m]))]
  }

  predicate ColonFree(attributes: seq<Attribute>) { forall i | 0 <= i < |attributes| :: ':' !in attributes[i].key }

  /** Printed, each attribute is one line with nothing to trim. */
  predicate TextsOk(attributes: seq<Attribute>)
  {
    forall i | 0 <= i < |attributes| :: TextOk(AttributeText(attributes[i]))
  }

  /** An attribute survives printing exactly when its key has no colon. */
  lemma AttributeSurvivesIff(a: Attribute)
    ensures AttributeOf(AttributeText(a)) == a <==> ':' !in a.key
  {
    if ':' in a.key {
      KeyHasNoColon(AttributeText(a));
    } else if a.value.Some? {
      SplitOnceAt(a.key, ':', a.value.value);
      assert AttributeText(a) == a.key + [':'] + a.value.value;
    }
  }

  lemma KeyHasNoColon(s: string)
    ensures ':' !in AttributeOf(s).key
  {
    var i := Find(s, ':');
    if i.Some? {
      var before := s[..i.value];
      assert forall k | 0 <= k < |before| :: before[k] == s[k];
    }
  }

  lemma ColonSnoc(attributes: seq<Attribute>, a: Attribute)
    ensures ColonFree(attributes + [a]) <==> ColonFree(attributes) && ':' !in a.key
  {
    var all := attributes + [a];
    assert all[|attributes|] == a;
    if ColonFree(all) {
      forall i | 0 <= i < |attributes| ensures ':' !in attributes[i].key { assert all[i] == attributes[i]; }
    }
  }

  lemma {:induction false} RereadIff(attributes: seq<Attribute>)
    ensures Reread(attributes) == attributes <==> ColonFree(attributes)
  {
    if attributes != [] {
      var m := |attributes| - 1;
      var (before, a) := (attributes[..m], attributes[m]);
      RereadIff(before);
      AttributeSurvivesIff(a);
      ColonSnoc(before, a);
      assert before + [a] == attributes;
      SnocEqual(Reread(before), AttributeOf(AttributeText(a)), before, a);
    }
  }

  lemma SnocEqual<T>(s: seq<T>, x: T, t: seq<T>, y: T)
    requires |s| == |t|
    ensures s + [x] == t + [y] <==> s == t && x == y
  {
    var (a, b) := (s + [x], t + [y]);
    if a == b { assert a[..|s|] == s && b[..|t|] == t && a[|s|] == x && b[|t|] == y; }
  }

  lemma TextsOfOk(attributes: seq<Attribute>)
    requires forall i | 0 <= i < |attributes| :: AttributeOk(attributes[i])
    ensures TextsOk(attributes) && ColonFree(attributes)
  {
    forall i | 0 <= i < |attributes| ensures TextOk(AttributeText(attributes[i])) { AttributeRoundTrip(attributes[i]); }
  }

  // ----- one line

  datatype Tag = V | O | S | T | C | A | M | Other

  function TagOf(prefix: string): (t: Tag)
  {
    if |prefix| != 1 then Other
    else
      match prefix[0]
      case 'v' => V
      case 'o' => O
      case 's' => S
      case 't' => T
      case 'c' => C
      case 'a' => A
      case 'm' => M
      case _ => Other
  }

  function TagChar(t: Tag): (c: char)
    requires !t.Other?
  {
    match t
    case V => 'v'
    case O => 'o'
    case S => 's'
    case T => 't'
    case C => 'c'
    case A => 'a'
    case M => 'm'
  }

  /** A printed line: a letter, an equals sign and a value. */
  function Line(t: Tag, value: string): (s: string)
    requires !t.Other?
  {
    [TagChar(t)] + ['='] + value
  }

  lemma LineReads(t: Tag, value: string)
    requires !t.Other? && TextOk(value)
    ensures SplitOnce(Line(t, value), '=') == Some(Split([TagChar(t)], value)) && TagOf([TagChar(t)]) == t
    ensures LineOk(Line(t, value))
  {
    SplitOnceAt([TagChar(t)], '=', value);
    var s := Line(t, value);
    assert s[0] == TagChar(t) && s[1] == '=';
    if value == "" { assert s[|s| - 1] == '='; } else { assert s[|s| - 1] == value[|value| - 1]; }
  }

  // ----- fields with words

  function OriginText(o: Origin): (s: string)
  {
    Join([o.username, PrintNumber(o.sessionId), PrintNumber(o.sessionVersion), "IN", AddressText(o.address), o.unicast])
  }

  function OriginOf(s: string): (r: Result<Origin, Error>)
  {
    var w := Words(s);
    if |w| < 2 then Err(Malformed)
    else
      var id := ParseNumber(w[1], U64_MAX);
      if id.None? || |w| < 3 then Err(Malformed)
      else
        var version := ParseNumber(w[2], U64_MAX);
        if version.None? || |w| < 4 then Err(Malformed)
        else if w[3] != "IN" && w[3] != "in" then Err(Unsupported)
        else if |w| < 5 then Err(Malformed)
        else if AddressOf(w[4]).None? then Err(Unsupported)
        else if |w| < 6 then Err(Malformed)
        else Ok(Origin(w[0], id.value, version.value, AddressOf(w[4]).value, w[5]))
  }

  predicate OriginOk(o: Origin)
  {
    WordOk(o.username) && WordOk(o.unicast) && o.sessionId <= U64_MAX && o.sessionVersion <= U64_MAX
  }

  lemma OriginRoundTrip(o: Origin)
    requires OriginOk(o)
    ensures OriginOf(OriginText(o)) == Ok(o) && TextOk(OriginText(o))
  {
    NumberRoundTrip(o.sessionId, U64_MAX);
    NumberRoundTrip(o.sessionVersion, U64_MAX);
    var ws := [o.username, PrintNumber(o.sessionId), PrintNumber(o.sessionVersion), "IN", AddressText(o.address),
      o.unicast];
    assert WordOk("IN") && WordOk(AddressText(o.address));
    WordsOfJoin(ws);
    JoinOk(ws);
  }

  function TimingText(start: nat, stop: nat): (s: string) { Join([PrintNumber(start), PrintNumber(stop)]) }

  function TimingOf(s: string): (r: Result<(nat, nat), Error>)
  {
    var w := Words(s);
    if |w| < 1 then Err(Malformed)
    else
      var start := ParseNumber(w[0], U64_MAX);
      if start.None? || |w| < 2 then Err(Malformed)
      else
        var stop := ParseNumber(w[1], U64_MAX);
        if stop.None? then Err(Malformed) else Ok((start.value, stop.value))
  }

  lemma TimingRoundTrip(start: nat, stop: nat)
    requires start <= U64_MAX && stop <= U64_MAX
    ensures TimingOf(TimingText(start, stop)) == Ok((start, stop)) && TextOk(TimingText(start, stop))
  {
    NumberRoundTrip(start, U64_MAX);
    NumberRoundTrip(stop, U64_MAX);
    WordsOfJoin([PrintNumber(start), PrintNumber(stop)]);
    JoinOk([PrintNumber(start), PrintNumber(stop)]);
  }

  /** The formats are joined on their own, after a space. */
  function MediaText(m: Media): (s: string)
  {
    KindText(m.kind) + " " + PrintNumber(m.port) + " " + m.protocol + " " + Join(m.formats)
  }

  function MediaOf(s: string): (r: Result<Media, Error>)
  {
    var w := Words(s);
    if |w| < 1 then Err(Malformed)
    else if KindOf(w[0]).None? then Err(Unsupported)
    else if |w| < 2 then Err(Malformed)
    else
      var port := ParseNumber(w[1], U16_MAX);
      if port.None? || |w| < 4 then Err(Malformed)
      else Ok(Media(KindOf(w[0]).value, "", port.value, w[2], w[3..], SendRecv, [], None))
  }

  predicate MediaLineOk(m: Media)
  {
    m.port <= U16_MAX && WordOk(m.protocol) && m.formats != []
      && forall i | 0 <= i < |m.formats| :: WordOk(m.formats[i])
  }

  lemma MediaRoundTrip(m: Media)
    requires MediaLineOk(m)
    ensures MediaOf(MediaText(m)) == Ok(Media(m.kind, "", m.port, m.protocol, m.formats, SendRecv, [], None))
    ensures TextOk(MediaText(m))
  {
    KindRoundTrip(m.kind);
    NumberRoundTrip(m.port, U16_MAX);
    var head := [KindText(m.kind), PrintNumber(m.port), m.protocol];
    var ws := head + m.formats;
    MediaJoin(KindText(m.kind), PrintNumber(m.port), m.protocol, m.formats);
    WordsOfJoin(ws);
    JoinOk(ws);
    assert ws[3..] == m.formats;
  }

  lemma MediaJoin(a: string, b: string, c: string, formats: seq<string>)
    requires formats != []
    ensures Join([a, b, c] + formats) == a + " " + b + " " + c + " " + Join(formats)
  {
    var ws := [a, b, c] + formats;
    assert ws[1..][1..][1..] == formats;
    assert ws[1..][1..][0] == c && ws[1..][0] == b && ws[0] == a;
    assert Join(ws[1..][1..]) == c + " " + Join(formats);
    assert Join(ws[1..]) == b + " " + (c + " " + Join(formats));
  }

  // ----- parsing

  /** The attributes that Chrome wants before the `mid`. */
  predicate Transport(a: Attribute)
  {
    a.key == "ice-ufrag" || a.key == "ice-pwd" || a.key == "fingerprint" || a.key == "setup" || a.key == "candidate"
  }

  function Apply(m: Media, a: Attribute): (m': Media)
  {
    if DirectionOf(a.key).Some? then m.(direction := DirectionOf(a.key).value)
    else if a.key == "mid" then (if a.value.Some? then m.(mid := a.value.value) else m)
    else if a.key == "connection" then m.(connection := a.value)
    else m.(attributes := m.attributes + [a])
  }

  /** A media section, and whether it states its own direction. */
  datatype Section = Section(media: Media, stated: bool)

  /** The state of the line loop; its two vectors of finished sections and direction flags are one list here. */
  datatype State = State(session: Session, current: Option<Media>, finished: seq<Section>, currentStated: bool,
                         sawVersion: bool, sawOrigin: bool, sawName: bool, sawTiming: bool)

  const DEFAULTS := Session(0, Origin("-", 0, 0, Ipv4, "0.0.0.0"), "-", 0, 0, None, [])

  const BEGIN := State(DEFAULTS, None, [], false, false, false, false, false)

  /** The section being read is put with the finished ones. */
  function Flush(s: State): (s': State)
  {
    if s.current.None? then s
    else s.(current := None, finished := s.finished + [Section(s.current.value, s.currentStated)])
  }

  function StepField(s: State, t: Tag, prefix: string, value: string): (r: Result<State, Error>)
  {
    match t
    case V =>
      var v := ParseNumber(value, U8_MAX);
      if v.None? then Err(Malformed) else Ok(s.(session := s.session.(version := v.value), sawVersion := true))
    case O =>
      match OriginOf(value) {
        case Err(e) => Err(e)
        case Ok(o) => Ok(s.(session := s.session.(origin := o), sawOrigin := true))
      }
    case S => Ok(s.(session := s.session.(name := value), sawName := true))
    case T =>
      match TimingOf(value) {
        case Err(e) => Err(e)
        case Ok(p) => Ok(s.(session := s.session.(start := p.0, stop := p.1), sawTiming := true))
      }
    case C =>
      if s.current.Some? then Ok(s.(current := Some(s.current.value.(connection := Some(value)))))
      else Ok(s.(session := s.session.(connection := Some(value))))
    case A =>
      var a := AttributeOf(value);
      if s.current.Some? then
        Ok(s.(current := Some(Apply(s.current.value, a)), currentStated := s.currentStated || DirectionOf(a.key).Some?))
      else Ok(s.(session := s.session.(attributes := s.session.attributes + [a])))
    case M =>
      match MediaOf(value) {
        case Err(e) => Err(e)
        case Ok(m) => Ok(Flush(s).(current := Some(m), currentStated := false))
      }
    case Other => Ok(s.(session := s.session.(attributes := s.session.attributes + [Attribute(prefix, Some(value))])))
  }

  function Step(s: State, line: string): (r: Result<State, Error>)
  {
    match SplitOnce(line, '=')
    case None => Err(Malformed)
    case Some(f) => StepField(s, TagOf(f.before), f.before, f.after)
  }

  function Fold(s: State, lines: seq<string>): (r: Result<State, Error>)
    decreases |lines|
  {
    if lines == [] then Ok(s)
    else
      match Step(s, lines[0])
      case Err(e) => Err(e)
      case Ok(s') => Fold(s', lines[1..])
  }

  /** The last direction attribute of the session, if there is one. */
  function SessionDirection(attributes: seq<Attribute>): (d: Option<Direction>)
  {
    if attributes == [] then None
    else
      var a := attributes[|attributes| - 1];
      if DirectionOf(a.key).Some? then DirectionOf(a.key) else SessionDirection(attributes[..|attributes| - 1])
  }

  predicate Sctp(m: Media) { m.kind.Application? && Contains(m.protocol, "SCTP") }

  /** The direction a section ends up with, given the session's. */
  function Settled(x: Section, d: Option<Direction>): (m: Media)
  {
    if d.Some? && !x.stated && !Sctp(x.media) then x.media.(direction := d.value) else x.media
  }

  function SettleAll(xs: seq<Section>, d: Option<Direction>): (ms: seq<Media>)
    ensures |ms| == |xs|
  {
    if xs == [] then [] else SettleAll(xs[..|xs| - 1], d) + [Settled(xs[|xs| - 1], d)]
  }

  function Finish(s: State): (r: Result<Description, Error>)
  {
    var end := Flush(s);
    if !s.sawVersion || !s.sawOrigin || !s.sawName || !s.sawTiming then Err(MissingLine)
    else Ok(Description(end.session, SettleAll(end.finished, SessionDirection(end.session.attributes))))
  }

  function Parse(raw: string): (r: Result<Description, Error>)
  {
    match Fold(BEGIN, Contents(Lines(raw)))
    case Err(e) => Err(e)
    case Ok(s) => Finish(s)
  }

  // ----- printing

  function AttributeLines(attributes: seq<Attribute>): (ls: seq<string>)
    ensures |ls| == |attributes|
  {
    if attributes == [] then []
    else AttributeLines(attributes[..|attributes| - 1]) + [Line(A, AttributeText(attributes[|attributes| - 1]))]
  }

  function ConnectionLines(c: Option<string>): (ls: seq<string>) { if c.Some? then [Line(C, c.value)] else [] }

  function SessionLines(s: Session): (ls: seq<string>)
  {
    [Line(V, PrintNumber(s.version)), Line(O, OriginText(s.origin)), Line(S, s.name)] + ConnectionLines(s.connection)
    + [Line(T, TimingText(s.start, s.stop))] + AttributeLines(s.attributes)
  }

  /** The attributes that are transport attributes, or those that are not, in order. */
  function Select(attributes: seq<Attribute>, transport: bool): (r: seq<Attribute>)
  {
    if attributes == [] then []
    else
      var a := attributes[|attributes| - 1];
      Select(attributes[..|attributes| - 1], transport) + if Transport(a) == transport then [a] else []
  }

  function MidLines(mid: string): (ls: seq<string>) { if mid == "" then [] else [Line(A, "mid:" + mid)] }

  function MediaLines(m: Media): (ls: seq<string>)
  {
    [Line(M, MediaText(m))] + ConnectionLines(m.connection) + AttributeLines(Select(m.attributes, true))
    + MidLines(m.mid) + [Line(A, DirectionText(m.direction))] + AttributeLines(Select(m.attributes, false))
  }

  function AllMediaLines(ms: seq<Media>): (ls: seq<string>)
  {
    if ms == [] then [] else AllMediaLines(ms[..|ms| - 1]) + MediaLines(ms[|ms| - 1])
  }

  function Print(d: Description): (s: string) { Printed(SessionLines(d.session) + AllMediaLines(d.media)) }

  /** Each section's transport attributes moved to the front, everything else in place. */
  function NormalMedia(m: Media): (r: Media)
  {
    m.(attributes := Select(m.attributes, true) + Select(m.attributes, false))
  }

  function NormalAll(ms: seq<Media>): (r: seq<Media>)
    ensures |r| == |ms|
  {
    if ms == [] then [] else NormalAll(ms[..|ms| - 1]) + [NormalMedia(ms[|ms| - 1])]
  }

  function Normal(d: Description): (r: Description) { Description(d.session, NormalAll(d.media)) }

  // ----- the round trip

  predicate FieldsOk(s: Session)
  {
    && s.version <= U8_MAX && OriginOk(s.origin) && TextOk(s.name) && s.start <= U64_MAX && s.stop <= U64_MAX
    && (s.connection.Some? ==> TextOk(s.connection.value))
  }

  predicate SessionOk(s: Session)
  {
    FieldsOk(s) && forall i | 0 <= i < |s.attributes| :: AttributeOk(s.attributes[i])
  }

  /** Direction, `mid` and `connection` are fields of a section, not attributes. */
  predicate Plain(a: Attribute) { DirectionOf(a.key).None? && a.key != "mid" && a.key != "connection" }

  predicate AttributesOk(attributes: seq<Attribute>)
  {
    forall i | 0 <= i < |attributes| :: AttributeOk(attributes[i]) && Plain(attributes[i])
  }

  predicate MediaOk(m: Media)
  {
    && MediaLineOk(m) && TextOk(m.mid) && (m.connection.Some? ==> TextOk(m.connection.value))
      && AttributesOk(m.attributes)
  }

  predicate WellFormed(d: Description) { SessionOk(d.session) && forall i | 0 <= i < |d.media| :: MediaOk(d.media[i]) }

  lemma {:induction false} FoldJoin(s: State, a: seq<string>, b: seq<string>)
    requires Fold(s, a).Ok?
    ensures Fold(s, a + b) == Fold(Fold(s, a).value, b)
    decreases |a|
  {
    if a == [] {
      assert a + b == b;
    } else {
      assert (a + b)[1..] == a[1..] + b && (a + b)[0] == a[0];
      FoldJoin(Step(s, a[0]).value, a[1..], b);
    }
  }

  lemma FoldOne(s: State, t: Tag, value: string)
    requires !t.Other? && TextOk(value)
    ensures Fold(s, [Line(t, value)]) == StepField(s, t, [TagChar(t)], value)
  {
    LineReads(t, value);
    var ls := [Line(t, value)];
    assert ls[1..] == [];
    assert Step(s, ls[0]) == StepField(s, t, [TagChar(t)], value);
  }

  /** The session's attributes, read back. */
  lemma {:induction false} SessionAttributes(s: State, attributes: seq<Attribute>)
    requires s.current.None? && TextsOk(attributes)
    ensures Fold(s, AttributeLines(attributes))
            == Ok(s.(session := s.session.(attributes := s.session.attributes + Reread(attributes))))
  {
    if attributes == [] {
      assert s.session.attributes + [] == s.session.attributes;
    } else {
      var m := |attributes| - 1;
      var a := attributes[m];
      SessionAttributes(s, attributes[..m]);
      var mid := Fold(s, AttributeLines(attributes[..m])).value;
      SessionAttribute(mid, AttributeText(a));
      FoldJoin(s, AttributeLines(attributes[..m]), [Line(A, AttributeText(a))]);
      RereadMore(s.session.attributes, attributes);
    }
  }

  lemma SessionAttribute(s: State, text: string)
    requires s.current.None? && TextOk(text)
    ensures Fold(s, [Line(A, text)])
            == Ok(s.(session := s.session.(attributes := s.session.attributes + [AttributeOf(text)])))
  {
    FoldOne(s, A, text);
  }

  lemma RereadMore(before: seq<Attribute>, attributes: seq<Attribute>)
    requires attributes != []
    ensures var m := |attributes| - 1;
            (before + Reread(attributes[..m])) + [AttributeOf(AttributeText(attributes[m]))]
            == before + Reread(attributes)
  {
    var m := |attributes| - 1;
    var (read, last) := (Reread(attributes[..m]), [AttributeOf(AttributeText(attributes[m]))]);
    assert Reread(attributes) == read + last;
    Assoc(before, read, last);
  }

  lemma Assoc<T>(a: seq<T>, b: seq<T>, c: seq<T>)
    ensures (a + b) + c == a + (b + c)
  {
  }

  /** A section's plain attributes, read back. */
  lemma {:induction false} MediaAttributes(s: State, attributes: seq<Attribute>)
    requires s.current.Some? && AttributesOk(attributes)
    ensures Fold(s, AttributeLines(attributes))
            == Ok(s.(current := Some(s.current.value.(attributes := s.current.value.attributes + attributes))))
  {
    if attributes == [] {
      assert s.current.value.attributes + [] == s.current.value.attributes;
    } else {
      var m := |attributes| - 1;
      var a := attributes[m];
      MediaAttributes(s, attributes[..m]);
      var mid := Fold(s, AttributeLines(attributes[..m])).value;
      PlainAttribute(mid, a);
      FoldJoin(s, AttributeLines(attributes[..m]), [Line(A, AttributeText(a))]);
      OneMoreAttribute(s.current.value.attributes, attributes);
    }
  }

  /** One plain attribute of a section, read back. */
  lemma PlainAttribute(s: State, a: Attribute)
    requires s.current.Some? && AttributeOk(a) && Plain(a)
    ensures var m := s.current.value;
            Fold(s, [Line(A, AttributeText(a))]) == Ok(s.(current := Some(m.(attributes := m.attributes + [a]))))
  {
    AttributeRoundTrip(a);
    FoldOne(s, A, AttributeText(a));
  }

  lemma OneMoreAttribute(before: seq<Attribute>, attributes: seq<Attribute>)
    requires attributes != []
    ensures var m := |attributes| - 1; (before + attributes[..m]) + [attributes[m]] == before + attributes
  {
    var m := |attributes| - 1;
    assert attributes[..m] + [attributes[m]] == attributes;
  }

  lemma ConnectionRead(s: State, c: Option<string>)
    requires c.Some? ==> TextOk(c.value)
    requires if s.current.Some? then s.current.value.connection.None? else s.session.connection.None?
    ensures Fold(s, ConnectionLines(c))
            == Ok(if s.current.Some? then s.(current := Some(s.current.value.(connection := c)))
                  else s.(session := s.session.(connection := c)))
  {
    if c.Some? { FoldOne(s, C, c.value); }
  }

  /** The three lines a description starts with. */
  lemma HeadRead(s: Session)
    requires FieldsOk(s)
    ensures Fold(BEGIN, [Line(V, PrintNumber(s.version)), Line(O, OriginText(s.origin)), Line(S, s.name)])
            == Ok(State(Session(s.version, s.origin, s.name, 0, 0, None, []), None, [], false, true, true, true, false))
  {
    NumberRoundTrip(s.version, U8_MAX);
    JoinOk([PrintNumber(s.version)]);
    OriginRoundTrip(s.origin);
    var (v, o, n) := (Line(V, PrintNumber(s.version)), Line(O, OriginText(s.origin)), Line(S, s.name));
    FoldOne(BEGIN, V, PrintNumber(s.version));
    var s1 := BEGIN.(session := DEFAULTS.(version := s.version), sawVersion := true);
    FoldOne(s1, O, OriginText(s.origin));
    var s2 := s1.(session := s1.session.(origin := s.origin), sawOrigin := true);
    FoldOne(s2, S, s.name);
    FoldJoin(BEGIN, [v], [o]);
    FoldJoin(BEGIN, [v] + [o], [n]);
    assert [v] + [o] + [n] == [v, o, n];
  }

  /** The session part, read back: everything but the attributes comes back as it is. */
  lemma SessionRead(s: Session)
    requires FieldsOk(s) && TextsOk(s.attributes)
    ensures Fold(BEGIN, SessionLines(s))
            == Ok(State(s.(attributes := Reread(s.attributes)), None, [], false, true, true, true, true))
  {
    var head := [Line(V, PrintNumber(s.version)), Line(O, OriginText(s.origin)), Line(S, s.name)];
    var timing := [Line(T, TimingText(s.start, s.stop))];
    HeadRead(s);
    var s1 := Fold(BEGIN, head).value;
    ConnectionRead(s1, s.connection);
    FoldJoin(BEGIN, head, ConnectionLines(s.connection));
    var s2 := s1.(session := s1.session.(connection := s.connection));
    TimingRoundTrip(s.start, s.stop);
    FoldOne(s2, T, TimingText(s.start, s.stop));
    FoldJoin(BEGIN, head + ConnectionLines(s.connection), timing);
    var s3 := s2.(session := s2.session.(start := s.start, stop := s.stop), sawTiming := true);
    SessionAttributes(s3, s.attributes);
    FoldJoin(BEGIN, head + ConnectionLines(s.connection) + timing, AttributeLines(s.attributes));
    assert [] + Reread(s.attributes) == Reread(s.attributes);
  }

  lemma {:induction false} SelectOk(attributes: seq<Attribute>, transport: bool)
    requires AttributesOk(attributes)
    ensures AttributesOk(Select(attributes, transport))
  {
    if attributes != [] { SelectOk(attributes[..|attributes| - 1], transport); }
  }

  lemma MidRead(s: State, mid: string)
    requires s.current.Some? && s.current.value.mid == "" && TextOk(mid)
    ensures Fold(s, MidLines(mid)) == Ok(s.(current := Some(s.current.value.(mid := mid))))
  {
    if mid != "" {
      var a := Attribute("mid", Some(mid));
      assert ':' !in "mid" && '\n' !in "mid";
      AttributeRoundTrip(a);
      assert AttributeText(a) == "mid:" + mid;
      FoldOne(s, A, "mid:" + mid);
      NotDirection("mid");
    }
  }

  lemma NotDirection(key: string)
    requires |key| != 8
    ensures DirectionOf(key).None?
  {
  }

  lemma DirectionRead(s: State, d: Direction)
    requires s.current.Some?
    ensures Fold(s, [Line(A, DirectionText(d))])
            == Ok(s.(current := Some(s.current.value.(direction := d)), currentStated := true))
  {
    DirectionAttribute(d);
    FoldOne(s, A, DirectionText(d));
  }

  lemma DirectionAttribute(d: Direction)
    ensures TextOk(DirectionText(d)) && DirectionOf(DirectionText(d)) == Some(d)
    ensures AttributeOf(DirectionText(d)) == Attribute(DirectionText(d), None)
  {
    DirectionRoundTrip(d);
    JoinOk([DirectionText(d)]);
    AttributeRoundTrip(Attribute(DirectionText(d), None));
  }

  /** The lines of a section up to its transport attributes. */
  lemma MediaFront(s: State, m: Media)
    requires MediaOk(m)
    ensures Fold(s, [Line(M, MediaText(m))] + ConnectionLines(m.connection)
            + AttributeLines(Select(m.attributes, true)))
            == Ok(Flush(s).(current := Some(Media(m.kind, "", m.port, m.protocol, m.formats, SendRecv,
                                                  Select(m.attributes, true), m.connection)),
                            currentStated := false))
  {
    var (head, connection, transport) := ([Line(M, MediaText(m))], ConnectionLines(m.connection),
                                          Select(m.attributes, true));
    MediaRoundTrip(m);
    FoldOne(s, M, MediaText(m));
    var m1 := Media(m.kind, "", m.port, m.protocol, m.formats, SendRecv, [], None);
    var s1 := Flush(s).(current := Some(m1), currentStated := false);
    ConnectionRead(s1, m.connection);
    FoldJoin(s, head, connection);
    var s2 := s1.(current := Some(m1.(connection := m.connection)));
    SelectOk(m.attributes, true);
    MediaAttributes(s2, transport);
    FoldJoin(s, head + connection, AttributeLines(transport));
    assert [] + transport == transport;
  }

  /** A whole section, read back after anything: its normal form, with a stated direction. */
  lemma MediaRead(s: State, m: Media)
    requires MediaOk(m)
    ensures Fold(s, MediaLines(m)) == Ok(Flush(s).(current := Some(NormalMedia(m)), currentStated := true))
  {
    var front := [Line(M, MediaText(m))] + ConnectionLines(m.connection) + AttributeLines(Select(m.attributes, true));
    var direction := [Line(A, DirectionText(m.direction))];
    MediaFront(s, m);
    var s1 := Fold(s, front).value;
    MidRead(s1, m.mid);
    FoldJoin(s, front, MidLines(m.mid));
    var s2 := s1.(current := Some(s1.current.value.(mid := m.mid)));
    DirectionRead(s2, m.direction);
    FoldJoin(s, front + MidLines(m.mid), direction);
    var s3 := s2.(current := Some(s2.current.value.(direction := m.direction)), currentStated := true);
    SelectOk(m.attributes, false);
    MediaAttributes(s3, Select(m.attributes, false));
    FoldJoin(s, front + MidLines(m.mid) + direction, AttributeLines(Select(m.attributes, false)));
  }

  /** Sections that all state their direction. */
  function Stated(ms: seq<Media>): (xs: seq<Section>)
    ensures |xs| == |ms|
  {
    if ms == [] then [] else Stated(ms[..|ms| - 1]) + [Section(ms[|ms| - 1], true)]
  }

  lemma {:induction false} AllMediaRead(s: State, ms: seq<Media>)
    requires s.current.None? && s.finished == [] && forall i | 0 <= i < |ms| :: MediaOk(ms[i])
    ensures Fold(s, AllMediaLines(ms)).Ok?
    ensures var end := Fold(s, AllMediaLines(ms)).value;
            Flush(end).finished == Stated(NormalAll(ms)) && Flush(end).session == s.session && end.session == s.session
            && end.sawVersion == s.sawVersion && end.sawOrigin == s.sawOrigin && end.sawName == s.sawName
              && end.sawTiming == s.sawTiming
  {
    if ms != [] {
      var k := |ms| - 1;
      AllMediaRead(s, ms[..k]);
      var mid := Fold(s, AllMediaLines(ms[..k])).value;
      MediaRead(mid, ms[k]);
      FoldJoin(s, AllMediaLines(ms[..k]), MediaLines(ms[k]));
      assert NormalAll(ms)[..k] == NormalAll(ms[..k]);
    }
  }

  /** A direction at session level does not reach sections that state their own. */
  lemma {:induction false} SettleStated(ms: seq<Media>, d: Option<Direction>)
    ensures SettleAll(Stated(ms), d) == ms
  {
    if ms != [] {
      var k := |ms| - 1;
      SettleStated(ms[..k], d);
      assert Stated(ms)[..k] == Stated(ms[..k]) && ms[..k] + [ms[k]] == ms;
    }
  }

  ghost predicate LinesOk(ls: seq<string>) { forall i | 0 <= i < |ls| :: LineOk(ls[i]) }

  lemma {:induction false} AttributeLinesOk(attributes: seq<Attribute>)
    requires TextsOk(attributes)
    ensures LinesOk(AttributeLines(attributes))
  {
    if attributes != [] {
      var m := |attributes| - 1;
      AttributeLinesOk(attributes[..m]);
      LineReads(A, AttributeText(attributes[m]));
    }
  }

  lemma LineIsOk(t: Tag, value: string)
    requires !t.Other? && TextOk(value)
    ensures LinesOk([Line(t, value)])
  {
    LineReads(t, value);
  }

  lemma LinesOkJoin(a: seq<string>, b: seq<string>)
    requires LinesOk(a) && LinesOk(b)
    ensures LinesOk(a + b)
  {
  }

  lemma HeadLinesOk(s: Session)
    requires FieldsOk(s)
    ensures LinesOk([Line(V, PrintNumber(s.version)), Line(O, OriginText(s.origin)), Line(S, s.name)])
  {
    NumberRoundTrip(s.version, U8_MAX);
    JoinOk([PrintNumber(s.version)]);
    OriginRoundTrip(s.origin);
    LineIsOk(V, PrintNumber(s.version));
    LineIsOk(O, OriginText(s.origin));
    LineIsOk(S, s.name);
    var (v, o, n) := (Line(V, PrintNumber(s.version)), Line(O, OriginText(s.origin)), Line(S, s.name));
    LinesOkJoin([v], [o]);
    LinesOkJoin([v] + [o], [n]);
    assert [v] + [o] + [n] == [v, o, n];
  }

  lemma ConnectionLinesOk(c: Option<string>)
    requires c.Some? ==> TextOk(c.value)
    ensures LinesOk(ConnectionLines(c))
  {
    if c.Some? { LineIsOk(C, c.value); }
  }

  lemma SessionLinesOk(s: Session)
    requires FieldsOk(s) && TextsOk(s.attributes)
    ensures LinesOk(SessionLines(s))
  {
    var head := [Line(V, PrintNumber(s.version)), Line(O, OriginText(s.origin)), Line(S, s.name)];
    var timing := [Line(T, TimingText(s.start, s.stop))];
    HeadLinesOk(s);
    ConnectionLinesOk(s.connection);
    TimingRoundTrip(s.start, s.stop);
    LineIsOk(T, TimingText(s.start, s.stop));
    AttributeLinesOk(s.attributes);
    LinesOkJoin(head, ConnectionLines(s.connection));
    LinesOkJoin(head + ConnectionLines(s.connection), timing);
    LinesOkJoin(head + ConnectionLines(s.connection) + timing, AttributeLines(s.attributes));
  }

  lemma MidLineOk(mid: string)
    requires TextOk(mid)
    ensures LinesOk(MidLines(mid))
  {
    if mid != "" {
      var t := "mid:" + mid;
      assert t[|t| - 1] == mid[|mid| - 1];
      LineIsOk(A, t);
    }
  }

  lemma MediaLinesOk(m: Media)
    requires MediaOk(m)
    ensures LinesOk(MediaLines(m))
  {
    MediaRoundTrip(m);
    LineIsOk(M, MediaText(m));
    ConnectionLinesOk(m.connection);
    SelectOk(m.attributes, true);
    SelectOk(m.attributes, false);
    TextsOfOk(Select(m.attributes, true));
    TextsOfOk(Select(m.attributes, false));
    AttributeLinesOk(Select(m.attributes, true));
    AttributeLinesOk(Select(m.attributes, false));
    MidLineOk(m.mid);
    DirectionRoundTrip(m.direction);
    JoinOk([DirectionText(m.direction)]);
    LineIsOk(A, DirectionText(m.direction));
    var a, b := [Line(M, MediaText(m))], ConnectionLines(m.connection);
    var c, d := AttributeLines(Select(m.attributes, true)), MidLines(m.mid);
    var e := [Line(A, DirectionText(m.direction))];
    LinesOkJoin(a, b);
    LinesOkJoin(a + b, c);
    LinesOkJoin(a + b + c, d);
    LinesOkJoin(a + b + c + d, e);
    LinesOkJoin(a + b + c + d + e, AttributeLines(Select(m.attributes, false)));
  }

  lemma {:induction false} AllMediaLinesOk(ms: seq<Media>)
    requires forall i | 0 <= i < |ms| :: MediaOk(ms[i])
    ensures LinesOk(AllMediaLines(ms))
  {
    if ms != [] {
      AllMediaLinesOk(ms[..|ms| - 1]);
      MediaLinesOk(ms[|ms| - 1]);
    }
  }

  /** A description whose lines can be printed; the keys of its session attributes may have colons. */
  predicate Printable(d: Description)
  {
    FieldsOk(d.session) && TextsOk(d.session.attributes) && forall i | 0 <= i < |d.media| :: MediaOk(d.media[i])
  }

  /** What parsing a printed description gives. */
  lemma ParsePrinted(d: Description)
    requires Printable(d)
    ensures Parse(Print(d)) == Ok(Normal(d).(session := d.session.(attributes := Reread(d.session.attributes))))
  {
    var (session, media) := (SessionLines(d.session), AllMediaLines(d.media));
    SessionLinesOk(d.session);
    AllMediaLinesOk(d.media);
    LinesRoundTrip(session + media);
    SessionRead(d.session);
    var s := State(d.session.(attributes := Reread(d.session.attributes)), None, [], false, true, true, true, true);
    AllMediaRead(s, d.media);
    FoldJoin(BEGIN, session, media);
    SettleStated(NormalAll(d.media), SessionDirection(s.session.attributes));
  }

  /** A printed description parses back to its normal form exactly when no key of a session attribute has a colon. */
  lemma SurvivesIff(d: Description)
    requires Printable(d)
    ensures Parse(Print(d)) == Ok(Normal(d)) <==> ColonFree(d.session.attributes)
  {
    ParsePrinted(d);
    RereadIff(d.session.attributes);
  }

  /**
   Parsing a printed description gives it back, with each section's transport attributes moved to the front and
   nothing else changed, also when the session carries a direction attribute.
   */
  lemma ParseUndoesPrint(d: Description)
    requires WellFormed(d)
    ensures Parse(Print(d)) == Ok(Normal(d))
  {
    TextsOfOk(d.session.attributes);
    SurvivesIff(d);
  }

  // ----- the normal form

  lemma {:induction false} SelectJoin(a: seq<Attribute>, b: seq<Attribute>, transport: bool)
    ensures Select(a + b, transport) == Select(a, transport) + Select(b, transport)
  {
    if b == [] {
      assert a + b == a && Select(a, transport) + [] == Select(a, transport);
    } else {
      var m := |b| - 1;
      SelectJoin(a, b[..m], transport);
      assert (a + b)[..|a| + m] == a + b[..m];
      var last := if Transport(b[m]) == transport then [b[m]] else [];
      assert (Select(a, transport) + Select(b[..m], transport)) + last
        == Select(a, transport) + (Select(b[..m], transport) + last);
    }
  }

  lemma {:induction false} SelectTwice(a: seq<Attribute>, transport: bool, again: bool)
    ensures Select(Select(a, transport), again) == if transport == again then Select(a, transport) else []
  {
    if a != [] {
      var m := |a| - 1;
      SelectTwice(a[..m], transport, again);
      var last := if Transport(a[m]) == transport then [a[m]] else [];
      SelectJoin(Select(a[..m], transport), last, again);
      SelectOne(a[m], again);
    }
  }

  lemma SelectOne(a: Attribute, transport: bool)
    ensures Select([a], transport) == if Transport(a) == transport then [a] else []
  {
    assert [a][..0] == [];
  }

  /**
   Moving the transport attributes first is stable and done once: a second time changes nothing, and prints the same.
   */
  lemma NormalSelects(m: Media, transport: bool)
    ensures Select(NormalMedia(m).attributes, transport) == Select(m.attributes, transport)
  {
    SelectJoin(Select(m.attributes, true), Select(m.attributes, false), transport);
    SelectTwice(m.attributes, true, transport);
    SelectTwice(m.attributes, false, transport);
    var s := Select(m.attributes, transport);
    assert s + [] == s && [] + s == s;
  }

  lemma {:induction false} NormalPrintsAll(ms: seq<Media>)
    ensures AllMediaLines(NormalAll(ms)) == AllMediaLines(ms) && NormalAll(NormalAll(ms)) == NormalAll(ms)
  {
    if ms != [] {
      var k := |ms| - 1;
      NormalPrintsAll(ms[..k]);
      NormalSelects(ms[k], true);
      NormalSelects(ms[k], false);
      assert NormalAll(ms)[..k] == NormalAll(ms[..k]) && NormalAll(ms)[k] == NormalMedia(ms[k]);
      assert MediaLines(NormalMedia(ms[k])) == MediaLines(ms[k]);
    }
  }

  /** Printing, parsing and printing again gives the text of the first printing. */
  lemma PrintParsePrint(d: Description)
    requires WellFormed(d)
    ensures Parse(Print(d)).Ok? && Print(Parse(Print(d)).value) == Print(d)
    ensures Normal(Normal(d)) == Normal(d)
  {
    ParseUndoesPrint(d);
    NormalPrintsAll(d.media);
  }

  // ----- the loops

  /** One line of the text: skipped when blank, else a step of the parser. */
  lemma LineStep(s: State, lines: seq<string>, i: nat)
    requires i < |lines|
    ensures var (line, rest) := (Trim(lines[i]), Contents(lines[i + 1..]));
            Fold(s, Contents(lines[i..])) ==
            if line == "" then Fold(s, rest)
            else if Step(s, line).Err? then Err(Step(s, line).error)
            else Fold(Step(s, line).value, rest)
  {
    var (line, rest) := (Trim(lines[i]), Contents(lines[i + 1..]));
    assert lines[i..][1..] == lines[i + 1..];
    if line == "" {
      assert [] + rest == rest;
    } else {
      assert ([line] + rest)[0] == line && ([line] + rest)[1..] == rest;
    }
  }

  /** The line loop of the parser; the first bad line ends it. */
  method ParseText(raw: string) returns (r: Result<Description, Error>)
    ensures r == Parse(raw)
  {
    var lines := Lines(raw);
    var s := BEGIN;
    var i: nat := 0;
    ghost var all := Fold(BEGIN, Contents(lines));
    assert lines[0..] == lines;
    while i < |lines|
      invariant i <= |lines| && Fold(s, Contents(lines[i..])) == all
    {
      var line := Trim(lines[i]);
      LineStep(s, lines, i);
      if line != "" {
        var next := Step(s, line);
        if next.Err? {
          return Err(next.error);
        }
        s := next.value;
      }
      i := i + 1;
    }
    r := Finish(s);
  }

  method WriteAttributes(out: string, attributes: seq<Attribute>) returns (r: string)
    ensures r == out + Printed(AttributeLines(attributes))
  {
    r := out;
    assert out + "" == out;
    for i := 0 to |attributes|
      invariant r == out + Printed(AttributeLines(attributes[..i]))
    {
      var a := attributes[i];
      var line := if a.value.Some? then "a=" + a.key + ":" + a.value.value else "a=" + a.key;
      assert line == Line(A, AttributeText(a));
      assert attributes[..i + 1][..i] == attributes[..i];
      PrintedSnoc(AttributeLines(attributes[..i]), line);
      r := Appended(r, out, Printed(AttributeLines(attributes[..i])), line);
    }
    assert attributes[..|attributes|] == attributes;
  }

  /** Adds one line end to a text. */
  method Appended(r: string, ghost out: string, ghost before: string, line: string) returns (r': string)
    requires r == out + before
    ensures r' == out + (before + (line + "\r\n"))
  {
    r' := r + (line + "\r\n");
  }

  lemma PrintedSnoc(ls: seq<string>, l: string)
    ensures Printed(ls + [l]) == Printed(ls) + (l + "\r\n")
  {
    PrintedJoin(ls, [l]);
    assert [l][1..] == [] && (l + "\r\n") + "" == l + "\r\n";
  }

  method WriteLine(out: string, line: string) returns (r: string)
    ensures r == out + Printed([line])
  {
    r := out + (line + "\r\n");
    assert [line][1..] == [] && (line + "\r\n") + "" == line + "\r\n";
  }

  lemma PrintedMore(out: string, a: seq<string>, b: seq<string>)
    ensures (out + Printed(a)) + Printed(b) == out + Printed(a + b)
  {
    PrintedJoin(a, b);
  }

  method WriteSession(s: Session) returns (out: string)
    ensures out == Printed(SessionLines(s))
  {
    var (v, o, n) := (Line(V, PrintNumber(s.version)), Line(O, OriginText(s.origin)), Line(S, s.name));
    out := WriteLine("", v);
    out := WriteLine(out, o);
    PrintedMore("", [v], [o]);
    out := WriteLine(out, n);
    PrintedMore("", [v] + [o], [n]);
    assert [v] + [o] + [n] == [v, o, n];
    ghost var done := [v, o, n];
    if s.connection.Some? {
      out := WriteLine(out, Line(C, s.connection.value));
      PrintedMore("", done, ConnectionLines(s.connection));
    } else {
      assert done + [] == done;
    }
    done := done + ConnectionLines(s.connection);
    var t := Line(T, TimingText(s.start, s.stop));
    out := WriteLine(out, t);
    PrintedMore("", done, [t]);
    out := WriteAttributes(out, s.attributes);
    PrintedMore("", done + [t], AttributeLines(s.attributes));
  }

  /** The partition into transport attributes and the others. */
  method Partition(attributes: seq<Attribute>) returns (transport: seq<Attribute>, media: seq<Attribute>)
    ensures transport == Select(attributes, true) && media == Select(attributes, false)
  {
    transport, media := [], [];
    for i := 0 to |attributes|
      invariant transport == Select(attributes[..i], true) && media == Select(attributes[..i], false)
    {
      assert attributes[..i + 1][..i] == attributes[..i];
      if Transport(attributes[i]) {
        transport := transport + [attributes[i]];
      } else {
        media := media + [attributes[i]];
      }
    }
    assert attributes[..|attributes|] == attributes;
  }

  method WriteMedia(start: string, m: Media) returns (out: string)
    ensures out == start + Printed(MediaLines(m))
  {
    var head := Line(M, MediaText(m));
    out := WriteLine(start, head);
    ghost var done := [head];
    if m.connection.Some? {
      out := WriteLine(out, Line(C, m.connection.value));
      PrintedMore(start, done, ConnectionLines(m.connection));
    } else {
      assert done + [] == done;
    }
    done := done + ConnectionLines(m.connection);
    var transport, media := Partition(m.attributes);
    out := WriteAttributes(out, transport);
    PrintedMore(start, done, AttributeLines(transport));
    done := done + AttributeLines(transport);
    if m.mid != "" {
      out := WriteLine(out, Line(A, "mid:" + m.mid));
      PrintedMore(start, done, MidLines(m.mid));
    } else {
      assert done + [] == done;
    }
    done := done + MidLines(m.mid);
    var d := Line(A, DirectionText(m.direction));
    out := WriteLine(out, d);
    PrintedMore(start, done, [d]);
    out := WriteAttributes(out, media);
    PrintedMore(start, done + [d], AttributeLines(media));
  }

  lemma PrintedStep(session: seq<string>, before: seq<string>, lines: seq<string>)
    ensures Printed(session + before) + Printed(lines) == Printed(session + (before + lines))
  {
    PrintedJoin(session + before, lines);
    assert session + before + lines == session + (before + lines);
  }

  lemma AllMediaSnoc(ms: seq<Media>, i: nat)
    requires i < |ms|
    ensures AllMediaLines(ms[..i + 1]) == AllMediaLines(ms[..i]) + MediaLines(ms[i])
  {
    assert ms[..i + 1][..i] == ms[..i];
  }

  method PrintText(d: Description) returns (out: string)
    ensures out == Print(d)
  {
    out := WriteSession(d.session);
    ghost var session, done := SessionLines(d.session), AllMediaLines(d.media[..0]);
    assert session + [] == session;
    for i := 0 to |d.media|
      invariant done == AllMediaLines(d.media[..i]) && out == Printed(session + done)
    {
      AllMediaSnoc(d.media, i);
      ghost var lines := MediaLines(d.media[i]);
      PrintedStep(session, done, lines);
      out := WriteMedia(out, d.media[i]);
      done := done + lines;
    }
    assert d.media[..|d.media|] == d.media;
  }
}

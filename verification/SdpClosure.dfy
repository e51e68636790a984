/**
 Every text the SDP parser accepts, not only printed ones: what comes out of it, and what printing that gives
 (src/sdp.rs).
 */
module SdpClosure {
  import opened Wrappers
  import opened SdpText
  import opened Sdp

  // ----- pieces of text

  predicate OneLine(s: string) { '\n' !in s }

  lemma {:induction false} LinesAreLines(s: string)
    ensures forall i | 0 <= i < |Lines(s)| :: OneLine(Lines(s)[i])
    decreases |s|
  {
    var i := Find(s, '\n');
    if i.Some? { LinesAreLines(s[i.value + 1..]); }
  }

  lemma {:induction false} TrimEndOk(s: string)
    ensures EndOk(TrimEnd(s)) && (OneLine(s) ==> OneLine(TrimEnd(s)))
  {
    if s != "" && IsSpace(s[|s| - 1]) { TrimEndOk(s[..|s| - 1]); }
  }

  lemma {:induction false} TrimStartOk(s: string)
    ensures OneLine(s) ==> OneLine(TrimStart(s))
  {
    if s != "" && IsSpace(s[0]) { TrimStartOk(s[1..]); }
  }

  lemma {:induction false} ContentsOk(ls: seq<string>)
    requires forall i | 0 <= i < |ls| :: OneLine(ls[i])
    ensures forall i | 0 <= i < |Contents(ls)| :: TextOk(Contents(ls)[i])
  {
    if ls != [] {
      ContentsOk(ls[1..]);
      TrimStartOk(ls[0]);
      TrimEndOk(TrimStart(ls[0]));
    }
  }

  lemma {:induction false} WordsOk(s: string)
    ensures forall i | 0 <= i < |Words(s)| :: WordOk(Words(s)[i])
    decreases |s|
  {
    if s != "" {
      if IsSpace(s[0]) { WordsOk(s[1..]); } else { WordsOk(s[WordLen(s)..]); }
    }
  }

  lemma NumberInRange(s: string, max: nat)
    ensures ParseNumber(s, max).Some? ==> ParseNumber(s, max).value <= max
  {
  }

  lemma SplitParts(s: string, c: char)
    requires SplitOnce(s, c).Some?
    ensures var r := SplitOnce(s, c).value;
            && c !in r.before && (OneLine(s) ==> OneLine(r.before) && OneLine(r.after))
              && (TextOk(s) ==> TextOk(r.after))
  {
    var i := Find(s, c).value;
    var after := s[i + 1..];
    if after != "" { assert after[|after| - 1] == s[|s| - 1]; }
  }

  // ----- one line

  lemma AttributeOfOk(value: string)
    requires TextOk(value)
    ensures AttributeOk(AttributeOf(value))
  {
    if SplitOnce(value, ':').Some? { SplitParts(value, ':'); }
  }

  lemma OriginOfOk(value: string)
    requires OriginOf(value).Ok?
    ensures OriginOk(OriginOf(value).value)
  {
    WordsOk(value);
  }

  lemma MediaOfOk(value: string)
    requires MediaOf(value).Ok?
    ensures MediaOk(MediaOf(value).value)
  {
    WordsOk(value);
  }

  lemma ApplyOk(m: Media, a: Attribute)
    requires MediaOk(m) && AttributeOk(a)
    ensures MediaOk(Apply(m, a))
  {
  }

  ghost predicate AllMediaOk(xs: seq<Section>) { forall i | 0 <= i < |xs| :: MediaOk(xs[i].media) }

  /** The session part, but for colons in the keys of its attributes. */
  predicate NearlyOk(s: Session)
  {
    && FieldsOk(s) && TextsOk(s.attributes)
    && forall i | 0 <= i < |s.attributes| :: ':' !in s.attributes[i].key ==> AttributeOk(s.attributes[i])
  }

  lemma NearlyIsOk(s: Session)
    requires NearlyOk(s)
    ensures SessionOk(s) <==> ColonFree(s.attributes)
  {
  }

  ghost predicate StateOk(s: State)
  {
    NearlyOk(s.session) && (s.current.Some? ==> MediaOk(s.current.value)) && AllMediaOk(s.finished)
  }

  lemma MediaFieldOk(s: State, t: Tag, prefix: string, value: string)
    requires StateOk(s) && TextOk(value) && StepField(s, t, prefix, value).Ok?
             && (t.M? || (s.current.Some? && (t.A? || t.C?)))
    ensures StateOk(StepField(s, t, prefix, value).value)
  {
    match t
    case M => MediaOfOk(value);
    case A =>
      AttributeOfOk(value);
      ApplyOk(s.current.value, AttributeOf(value));
    case C =>
  }

  lemma NearlySnoc(s: Session, a: Attribute)
    requires NearlyOk(s) && TextOk(AttributeText(a)) && (':' !in a.key ==> AttributeOk(a))
    ensures NearlyOk(s.(attributes := s.attributes + [a]))
  {
  }

  /** An unknown line, as it is printed. */
  lemma UnknownText(prefix: string, value: string)
    requires TextOk(value) && OneLine(prefix)
    ensures TextOk(AttributeText(Attribute(prefix, Some(value))))
  {
    var text := prefix + ":" + value;
    assert text[|text| - 1] == if value == "" then ':' else value[|value| - 1];
  }

  lemma SessionFieldOk(s: State, t: Tag, prefix: string, value: string)
    requires StateOk(s) && TextOk(value) && OneLine(prefix) && StepField(s, t, prefix, value).Ok? && !t.M?
    requires s.current.None? || (!t.A? && !t.C?)
    ensures StateOk(StepField(s, t, prefix, value).value)
  {
    match t
    case V => NumberInRange(value, U8_MAX);
    case O => OriginOfOk(value);
    case T => WordsOk(value);
    case A =>
      AttributeOfOk(value);
      AttributeRoundTrip(AttributeOf(value));
      NearlySnoc(s.session, AttributeOf(value));
    case S =>
    case C =>
    case Other =>
      var a := Attribute(prefix, Some(value));
      UnknownText(prefix, value);
      NearlySnoc(s.session, a);
  }

  /** A line adds a key with a colon exactly when its own prefix has one. */
  lemma StepColons(s: State, line: string)
    requires TextOk(line) && StateOk(s) && Step(s, line).Ok?
    ensures StateOk(Step(s, line).value)
    ensures ColonFree(Step(s, line).value.session.attributes)
            <==> ColonFree(s.session.attributes) && ':' !in SplitOnce(line, '=').value.before
  {
    var f := SplitOnce(line, '=').value;
    var t := TagOf(f.before);
    SplitParts(line, '=');
    if t.M? || (s.current.Some? && (t.A? || t.C?)) {
      MediaFieldOk(s, t, f.before, f.after);
    } else {
      SessionFieldOk(s, t, f.before, f.after);
    }
    if t.A? { AttributeOfOk(f.after); }
    FieldColons(s, t, f.before, f.after);
  }

  lemma FieldColons(s: State, t: Tag, prefix: string, value: string)
    requires t == TagOf(prefix) && StepField(s, t, prefix, value).Ok? && ':' !in AttributeOf(value).key
    ensures ColonFree(StepField(s, t, prefix, value).value.session.attributes)
            <==> ColonFree(s.session.attributes) && ':' !in prefix
  {
    if t.Other? {
      ColonSnoc(s.session.attributes, Attribute(prefix, Some(value)));
    } else {
      assert prefix == [prefix[0]] && prefix[0] != ':';
      if t.A? { ColonSnoc(s.session.attributes, AttributeOf(value)); }
    }
  }

  // ----- whole texts

  /** No line's part before the equals sign has a colon. */
  predicate PrefixesOk(lines: seq<string>)
  {
    forall i | 0 <= i < |lines| :: SplitOnce(lines[i], '=').Some? ==> ':' !in SplitOnce(lines[i], '=').value.before
  }

  lemma {:induction false} FoldColons(s: State, lines: seq<string>)
    requires StateOk(s) && (forall i | 0 <= i < |lines| :: TextOk(lines[i])) && Fold(s, lines).Ok?
    ensures StateOk(Fold(s, lines).value)
    ensures ColonFree(Fold(s, lines).value.session.attributes) <==> ColonFree(s.session.attributes) && PrefixesOk(lines)
    decreases |lines|
  {
    if lines != [] {
      StepColons(s, lines[0]);
      FoldColons(Step(s, lines[0]).value, lines[1..]);
      PrefixesCons(lines);
    }
  }

  lemma PrefixesCons(lines: seq<string>)
    requires lines != [] && SplitOnce(lines[0], '=').Some?
    ensures PrefixesOk(lines) <==> PrefixesOk(lines[1..]) && ':' !in SplitOnce(lines[0], '=').value.before
  {
    assert lines == [lines[0]] + lines[1..];
  }

  lemma {:induction false} SettleOk(xs: seq<Section>, d: Option<Direction>)
    requires AllMediaOk(xs)
    ensures forall i | 0 <= i < |SettleAll(xs, d)| :: MediaOk(SettleAll(xs, d)[i])
  {
    if xs != [] { SettleOk(xs[..|xs| - 1], d); }
  }

  lemma BeginOk()
    ensures StateOk(BEGIN)
  {
    assert WordOk("-") && WordOk("0.0.0.0") && TextOk("-");
  }

  /** The state after the last line, as a description. */
  lemma FinishedIsPrintable(s: State, d: Description)
    requires StateOk(s) && Finish(s) == Ok(d)
    ensures Printable(d) && d.session == s.session && (WellFormed(d) <==> ColonFree(d.session.attributes))
  {
    NearlyIsOk(s.session);
    SettleOk(Flush(s).finished, SessionDirection(s.session.attributes));
  }

  /** Whatever a text parses to can be printed, and is well-formed exactly when no prefix in the text has a colon. */
  lemma ParsedIsWellFormedIff(raw: string, d: Description)
    requires Parse(raw) == Ok(d)
    ensures Printable(d) && (WellFormed(d) <==> PrefixesOk(Contents(Lines(raw))))
    ensures ColonFree(d.session.attributes) <==> PrefixesOk(Contents(Lines(raw)))
  {
    var lines := Contents(Lines(raw));
    LinesAreLines(raw);
    ContentsOk(Lines(raw));
    BeginOk();
    FoldColons(BEGIN, lines);
    FinishedIsPrintable(Fold(BEGIN, lines).value, d);
  }

  /**
   Printing what an accepted text parses to and parsing that gives the same description, up to the normal form,
   exactly when no line of the text has a colon before its equals sign.
   */
  lemma AcceptedTextSurvivesIff(raw: string, d: Description)
    requires Parse(raw) == Ok(d)
    ensures Parse(Print(d)) == Ok(Normal(d)) <==> PrefixesOk(Contents(Lines(raw)))
  {
    ParsedIsWellFormedIff(raw, d);
    SurvivesIff(d);
  }

  /** Without such lines nothing changes from the first printing on. */
  lemma AcceptedTextIsStable(raw: string, d: Description)
    requires Parse(raw) == Ok(d) && PrefixesOk(Contents(Lines(raw)))
    ensures Parse(Print(d)) == Ok(Normal(d)) && Print(Normal(d)) == Print(d)
  {
    AcceptedTextSurvivesIff(raw, d);
    NormalPrintsAll(d.media);
  }

  // ----- a text that does not survive

  const COLON_TEXT := ("v=0" + "\r\n") + ("o=- 0 0 IN IP4 0.0.0.0" + "\r\n") + ("s=-" + "\r\n") + ("t=0 0" + "\r\n")
                      + ("x:y=z" + "\r\n")

  lemma JoinCons(w: string, ws: seq<string>)
    requires ws != []
    ensures Join([w] + ws) == w + " " + Join(ws)
  {
    assert ([w] + ws)[1..] == ws;
  }

  lemma JoinAddress()
    ensures Join(["IN", "IP4", "0.0.0.0"]) == "IN IP4 0.0.0.0"
  {
    JoinCons("IP4", ["0.0.0.0"]);
    JoinCons("IN", ["IP4", "0.0.0.0"]);
    assert ["IN"] + ["IP4", "0.0.0.0"] == ["IN", "IP4", "0.0.0.0"] && ["IP4"] + ["0.0.0.0"] == ["IP4", "0.0.0.0"];
  }

  lemma JoinOrigin()
    ensures Join(["-", "0", "0", "IN", "IP4", "0.0.0.0"]) == "- 0 0 IN IP4 0.0.0.0"
  {
    var rest := ["IN", "IP4", "0.0.0.0"];
    JoinAddress();
    JoinCons("0", rest);
    JoinCons("0", ["0"] + rest);
    JoinCons("-", ["0"] + (["0"] + rest));
    assert ["-"] + (["0"] + (["0"] + rest)) == ["-", "0", "0", "IN", "IP4", "0.0.0.0"];
  }

  lemma PrintZero()
    ensures PrintNumber(0) == "0"
  {
    assert DigitChar(0) == '0';
  }

  lemma DefaultOrigin()
    ensures Line(O, OriginText(DEFAULTS.origin)) == "o=- 0 0 IN IP4 0.0.0.0"
  {
    PrintZero();
    JoinOrigin();
  }

  lemma DefaultTiming()
    ensures Line(T, TimingText(0, 0)) == "t=0 0"
  {
    PrintZero();
    JoinCons("0", ["0"]);
    assert ["0"] + ["0"] == ["0", "0"];
  }

  lemma ColonTextLines()
    ensures COLON_TEXT == Printed(SessionLines(DEFAULTS) + ["x:y=z"])
  {
    PrintZero();
    DefaultOrigin();
    DefaultTiming();
    var (v, o, n, t, x) := ("v=0", "o=- 0 0 IN IP4 0.0.0.0", "s=-", "t=0 0", "x:y=z");
    assert Line(V, PrintNumber(0)) == v && Line(S, "-") == n;
    assert SessionLines(DEFAULTS) + [x] == [v] + [o] + [n] + [t] + [x];
    PrintedSnoc([], v);
    assert [] + [v] == [v] && "" + (v + "\r\n") == v + "\r\n";
    PrintedSnoc([v], o);
    PrintedSnoc([v] + [o], n);
    PrintedSnoc([v] + [o] + [n], t);
    PrintedSnoc([v] + [o] + [n] + [t], x);
  }

  lemma DefaultsOk()
    ensures SessionOk(DEFAULTS) && TextsOk(DEFAULTS.attributes)
  {
    assert WordOk("-") && WordOk("0.0.0.0") && TextOk("-");
  }

  lemma ColonLine(s: State)
    requires s.current.None?
    ensures Fold(s, ["x:y=z"])
            == Ok(s.(session := s.session.(attributes := s.session.attributes + [Attribute("x:y", Some("z"))])))
    ensures LineOk("x:y=z")
  {
    ColonLineSplits();
    assert ["x:y=z"][1..] == [];
  }

  lemma ColonLineSplits()
    ensures SplitOnce("x:y=z", '=') == Some(Split("x:y", "z"))
  {
    SplitOnceAt("x:y", '=', "z");
    assert "x:y" + ['='] + "z" == "x:y=z";
  }

  lemma ColonContents()
    ensures Contents(Lines(COLON_TEXT)) == SessionLines(DEFAULTS) + ["x:y=z"]
  {
    DefaultsOk();
    ColonTextLines();
    SessionLinesOk(DEFAULTS);
    assert LineOk("x:y=z");
    LinesRoundTrip(SessionLines(DEFAULTS) + ["x:y=z"]);
  }

  lemma ColonFold(s: State)
    requires s == State(DEFAULTS, None, [], false, true, true, true, true)
    ensures Fold(BEGIN, SessionLines(DEFAULTS) + ["x:y=z"])
            == Ok(s.(session := DEFAULTS.(attributes := [Attribute("x:y", Some("z"))])))
  {
    var base := SessionLines(DEFAULTS);
    assert Fold(BEGIN, base) == Ok(s) by {
      DefaultsOk();
      SessionRead(DEFAULTS);
    }
    ColonLine(s);
    assert [] + [Attribute("x:y", Some("z"))] == [Attribute("x:y", Some("z"))];
    FoldThen(BEGIN, base, s, ["x:y=z"]);
  }

  lemma FoldThen(s: State, a: seq<string>, t: State, b: seq<string>)
    requires Fold(s, a) == Ok(t)
    ensures Fold(s, a + b) == Fold(t, b)
  {
    FoldJoin(s, a, b);
  }

  lemma ColonTextParses(d: Description)
    requires d == Description(DEFAULTS.(attributes := [Attribute("x:y", Some("z"))]), [])
    ensures Parse(COLON_TEXT) == Ok(d)
  {
    var s := State(DEFAULTS, None, [], false, true, true, true, true);
    var lines := Contents(Lines(COLON_TEXT));
    assert lines == SessionLines(DEFAULTS) + ["x:y=z"] by { ColonContents(); }
    assert Fold(BEGIN, lines) == Ok(s.(session := d.session)) by { ColonFold(s); }
    assert SettleAll([], SessionDirection(d.session.attributes)) == [];
  }

  /** A text with one line `x:y=z`: the parser takes it, and printing turns the key into `x`. */
  lemma ColonPrefixIsLost()
    ensures var d := Description(DEFAULTS.(attributes := [Attribute("x:y", Some("z"))]), []);
            && Parse(COLON_TEXT) == Ok(d)
            && Parse(Print(d)) == Ok(d.(session := DEFAULTS.(attributes := [Attribute("x", Some("y:z"))])))
  {
    var d := Description(DEFAULTS.(attributes := [Attribute("x:y", Some("z"))]), []);
    ColonTextParses(d);
    ColonReread(d);
  }

  lemma ColonReread(d: Description)
    requires d == Description(DEFAULTS.(attributes := [Attribute("x:y", Some("z"))]), [])
    ensures Parse(Print(d)) == Ok(d.(session := DEFAULTS.(attributes := [Attribute("x", Some("y:z"))])))
  {
    DefaultsOk();
    ColonAttribute(d.session.attributes);
    ParsePrinted(d);
  }

  lemma ColonAttribute(attributes: seq<Attribute>)
    requires attributes == [Attribute("x:y", Some("z"))]
    ensures TextsOk(attributes) && Reread(attributes) == [Attribute("x", Some("y:z"))]
  {
    SplitOnceAt("x", ':', "y:z");
    assert AttributeText(attributes[0]) == "x" + [':'] + "y:z";
    assert attributes[..0] == [] && Reread([]) == [];
  }
}

/** The text operations the SDP code uses: lines, trimming, words, numbers, splitting at a character. */
module SdpText {
  import opened Wrappers

  /** `char::is_whitespace`: the Unicode White_Space property. */
  predicate IsSpace(c: char)
  {
    var n := c as int;
    || 9 <= n <= 13 || n == 32 || n == 0x85 || n == 0xA0 || n == 0x1680 || 0x2000 <= n <= 0x200A
    || n == 0x2028 || n == 0x2029 || n == 0x202F || n == 0x205F || n == 0x3000
  }

  // ----- trimming

  function TrimStart(s: string): (r: string)
    ensures |r| <= |s|
  {
    if s != "" && IsSpace(s[0]) then TrimStart(s[1..]) else s
  }

  function TrimEnd(s: string): (r: string)
    ensures |r| <= |s| && r <= s
  {
    if s != "" && IsSpace(s[|s| - 1]) then TrimEnd(s[..|s| - 1]) else s
  }

  function Trim(s: string): (r: string) { TrimEnd(TrimStart(s)) }

  /** Nothing to trim at the end. */
  predicate EndOk(s: string) { s == "" || !IsSpace(s[|s| - 1]) }

  /** A printed line without its line end: trimmed, and on one line. */
  predicate LineOk(s: string) { s != "" && !IsSpace(s[0]) && EndOk(s) && '\n' !in s }

  lemma TrimPrinted(s: string)
    requires LineOk(s)
    ensures Trim(s + "\r") == s
  {
    var t := s + "\r";
    assert t[0] == s[0] && TrimStart(t) == t;
    assert IsSpace('\r') && t[|t| - 1] == '\r' && t[..|t| - 1] == s;
    assert TrimEnd(s) == s;
  }

  // ----- lines

  function Find(s: string, c: char): (i: Option<nat>)
    ensures i.Some? ==> i.value < |s| && s[i.value] == c && forall k | 0 <= k < i.value :: s[k] != c
    ensures i.None? ==> c !in s
  {
    if s == "" then None
    else if s[0] == c then Some(0)
    else
      var rest := Find(s[1..], c);
      assert s == [s[0]] + s[1..];
      if rest.Some? then Some(rest.value + 1) else None
  }

  /** The pieces between line feeds. */
  function Lines(s: string): (ls: seq<string>)
    decreases |s|
  {
    var i := Find(s, '\n');
    if i.None? then [s] else [s[..i.value]] + Lines(s[i.value + 1..])
  }

  /** The trimmed lines that are not empty. */
  function Contents(ls: seq<string>): (cs: seq<string>)
  {
    if ls == [] then []
    else (if Trim(ls[0]) == "" then [] else [Trim(ls[0])]) + Contents(ls[1..])
  }

  /** Each line with its line end. */
  function Printed(ls: seq<string>): (s: string)
  {
    if ls == [] then "" else (ls[0] + "\r\n") + Printed(ls[1..])
  }

  lemma FindUnique(s: string, c: char, k: nat)
    requires k < |s| && s[k] == c && forall i | 0 <= i < k :: s[i] != c
    ensures Find(s, c) == Some(k)
  {
    var i := Find(s, c);
    assert c in s;
  }

  lemma LinesPrinted(l: string, rest: string)
    requires '\n' !in l
    ensures Lines((l + "\r\n") + rest) == [l + "\r"] + Lines(rest)
  {
    var s := (l + "\r\n") + rest;
    var k := |l| + 1;
    assert s[k] == '\n';
    forall i | 0 <= i < k ensures s[i] != '\n' {
      if i < |l| { assert s[i] == l[i]; } else { assert s[i] == '\r'; }
    }
    FindUnique(s, '\n', k);
    assert s[..k] == l + "\r" && s[k + 1..] == rest;
  }

  /** Printing lines and splitting the text again gives the lines. */
  lemma {:induction false} LinesRoundTrip(ls: seq<string>)
    requires forall i | 0 <= i < |ls| :: LineOk(ls[i])
    ensures Contents(Lines(Printed(ls))) == ls
  {
    if ls == [] {
      assert Lines("") == [""] && Trim("") == "" && Contents([""][1..]) == [];
    } else {
      var rest := Printed(ls[1..]);
      LinesPrinted(ls[0], rest);
      TrimPrinted(ls[0]);
      LinesRoundTrip(ls[1..]);
      ContentsCons(ls[0] + "\r", ls[0], Lines(rest));
      assert [ls[0]] + ls[1..] == ls;
    }
  }

  lemma ContentsCons(raw: string, l: string, rest: seq<string>)
    requires Trim(raw) == l && l != ""
    ensures Contents([raw] + rest) == [l] + Contents(rest)
  {
    assert ([raw] + rest)[1..] == rest;
  }

  lemma {:induction false} PrintedJoin(a: seq<string>, b: seq<string>)
    ensures Printed(a + b) == Printed(a) + Printed(b)
  {
    if a == [] {
      assert a + b == b && "" + Printed(b) == Printed(b);
    } else {
      PrintedJoin(a[1..], b);
      assert (a + b)[1..] == a[1..] + b;
      assert (a[0] + "\r\n") + (Printed(a[1..]) + Printed(b)) == ((a[0] + "\r\n") + Printed(a[1..])) + Printed(b);
    }
  }

  // ----- words

  predicate NoSpace(s: string) { forall i | 0 <= i < |s| :: !IsSpace(s[i]) }

  predicate WordOk(s: string) { s != "" && NoSpace(s) }

  /** The length of the word at the front. */
  function WordLen(s: string): (n: nat)
    ensures n <= |s| && NoSpace(s[..n]) && (n < |s| ==> IsSpace(s[n])) && (s != "" && !IsSpace(s[0]) ==> n > 0)
  {
    if s == "" || IsSpace(s[0]) then 0
    else
      var n := WordLen(s[1..]);
      assert s[..n + 1] == [s[0]] + s[1..][..n];
      1 + n
  }

  /** `split_whitespace`. */
  function Words(s: string): (ws: seq<string>)
    decreases |s|
  {
    if s == "" then []
    else if IsSpace(s[0]) then Words(s[1..])
    else [s[..WordLen(s)]] + Words(s[WordLen(s)..])
  }

  /** Words separated by single spaces. */
  function Join(ws: seq<string>): (s: string)
  {
    if ws == [] then "" else if |ws| == 1 then ws[0] else ws[0] + " " + Join(ws[1..])
  }

  lemma {:induction false} WordLenOf(w: string, rest: string)
    requires NoSpace(w) && (rest == "" || IsSpace(rest[0]))
    ensures WordLen(w + rest) == |w|
  {
    if w != "" {
      WordLenOf(w[1..], rest);
      assert (w + rest)[1..] == w[1..] + rest;
      assert !IsSpace(w[0]);
    } else {
      assert w + rest == rest;
    }
  }

  lemma FirstWord(w: string, rest: string)
    requires WordOk(w) && (rest == "" || IsSpace(rest[0]))
    ensures Words(w + rest) == [w] + Words(rest)
  {
    WordLenOf(w, rest);
    assert (w + rest)[..|w|] == w && (w + rest)[|w|..] == rest;
    assert !IsSpace(w[0]);
  }

  lemma {:induction false} WordsOfJoin(ws: seq<string>)
    requires forall i | 0 <= i < |ws| :: WordOk(ws[i])
    ensures Words(Join(ws)) == ws
  {
    if |ws| == 1 {
      FirstWord(ws[0], "");
      assert ws[0] + "" == ws[0] && [ws[0]] + [] == ws;
    } else if |ws| > 1 {
      var rest := " " + Join(ws[1..]);
      WordsOfJoin(ws[1..]);
      assert ws[0] + " " + Join(ws[1..]) == ws[0] + rest;
      assert IsSpace(rest[0]) && rest[1..] == Join(ws[1..]);
      FirstWord(ws[0], rest);
      assert [ws[0]] + ws[1..] == ws;
    }
  }

  /** A line of words is on one line and needs no trimming. */
  lemma {:induction false} JoinOk(ws: seq<string>)
    requires ws != [] && forall i | 0 <= i < |ws| :: WordOk(ws[i])
    ensures Join(ws) != "" && EndOk(Join(ws)) && '\n' !in Join(ws)
  {
    assert IsSpace('\n') && !('\n' == ' ');
    assert WordOk(ws[0]);
    if |ws| > 1 { JoinOk(ws[1..]); }
  }

  // ----- numbers

  function DigitChar(d: nat): (c: char)
    requires d < 10
  {
    (('0' as int) + d) as char
  }

  predicate IsDigit(c: char) { '0' <= c <= '9' }

  function DigitValue(c: char): (d: nat)
    requires IsDigit(c)
    ensures d < 10
  {
    (c as int) - ('0' as int)
  }

  function PrintNumber(n: nat): (s: string)
    ensures s != ""
  {
    if n < 10 then [DigitChar(n)] else PrintNumber(n / 10) + [DigitChar(n % 10)]
  }

  function ReadDigits(s: string): (v: Option<nat>)
  {
    if s == "" then Some(0)
    else
      match ReadDigits(s[..|s| - 1])
      case None => None
      case Some(v) => if IsDigit(s[|s| - 1]) then Some(10 * v + DigitValue(s[|s| - 1])) else None
  }

  /** Parsing an unsigned integer: an optional plus sign, at least one digit, in range. */
  function ParseNumber(s: string, max: nat): (v: Option<nat>)
  {
    var body := if s != "" && s[0] == '+' then s[1..] else s;
    if body == "" then None
    else
      match ReadDigits(body)
      case None => None
      case Some(v) => if v <= max then Some(v) else None
  }

  lemma {:induction false} NumberDigits(n: nat)
    ensures ReadDigits(PrintNumber(n)) == Some(n) && WordOk(PrintNumber(n)) && PrintNumber(n)[0] != '+'
  {
    var s := PrintNumber(n);
    if n < 10 {
      assert s[..0] == "" && ReadDigits("") == Some(0);
    } else {
      NumberDigits(n / 10);
      var last := DigitChar(n % 10);
      assert s[..|s| - 1] == PrintNumber(n / 10) && s[|s| - 1] == last;
      assert IsDigit(last) && DigitValue(last) == n % 10;
    }
  }

  lemma NumberRoundTrip(n: nat, max: nat)
    requires n <= max
    ensures ParseNumber(PrintNumber(n), max) == Some(n) && WordOk(PrintNumber(n))
  {
    NumberDigits(n);
  }

  // ----- splitting at a character

  datatype Split = Split(before: string, after: string)

  /** `split_once`. */
  function SplitOnce(s: string, c: char): (r: Option<Split>)
  {
    var i := Find(s, c);
    if i.None? then None else Some(Split(s[..i.value], s[i.value + 1..]))
  }

  lemma SplitOnceAt(a: string, c: char, b: string)
    requires c !in a
    ensures SplitOnce(a + [c] + b, c) == Some(Split(a, b))
  {
    var s := a + [c] + b;
    forall i | 0 <= i < |a| ensures s[i] != c { assert s[i] == a[i]; }
    FindUnique(s, c, |a|);
    assert s[..|a|] == a && s[|a| + 1..] == b;
  }

  predicate Contains(s: string, t: string)
  {
    t <= s || (s != "" && Contains(s[1..], t))
  }
}

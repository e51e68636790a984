/**
 The T.4 one-dimensional (MH) page encoder of src/t38/t4.rs, and a prefix decoder written from clause 4.1 of ITU-T T.4
 as its specification.
 */
module MhEncoder {
  import Modular
  import opened Wrappers
  import opened MhTables
  import opened MhBits
  import Bytes

  type Byte = Bytes.Byte

  /** The codewords of one colour: 64 terminating codes, then 40 make-up codes. */
  type Book = b: seq<Bits> | |b| == CODES && forall i | 0 <= i < |b| :: b[i] != [] witness seq(CODES, i => [true])

  datatype Books = Books(white: Book, black: Book) {
    function Of(black: bool): (b: Book) { if black then this.black else white }
  }

  function RunOf(i: nat): (n: nat) { if i < 64 then i else 64 * (i - 63) }

  /** No codeword starts another, and none can be confused with the end-of-line code. */
  ghost predicate Decodable(b: Book)
  {
    && (forall i, j {:trigger Starts(b[i], b[j])} | 0 <= i < |b| && 0 <= j < |b| && Starts(b[i], b[j]) :: i == j)
    && (forall i {:trigger Starts(b[i], EOL)} {:trigger Starts(EOL, b[i])} | 0 <= i < |b| ::
          !Starts(b[i], EOL) && !Starts(EOL, b[i]))
  }

  predicate Starts(a: Bits, s: Bits) { a <= s }

  ghost predicate BothDecodable(t: Books) { Decodable(t.white) && Decodable(t.black) }

  // ----- the decoder: the specification

  /** The first codeword, from number `i` on, that starts the bits. */
  function FindCode(b: Book, bits: Bits, i: nat): (r: Option<nat>)
    requires i <= |b|
    ensures r.Some? ==> r.value < |b| && b[r.value] <= bits
    decreases |b| - i
  {
    if i == |b| then None
    else if b[i] <= bits then Some(i)
    else FindCode(b, bits, i + 1)
  }

  /** One run of a colour: any number of make-up codes, then a terminating code. */
  function DecodeRun(b: Book, bits: Bits): (r: Option<(nat, Bits)>)
    ensures r.Some? ==> |r.value.1| < |bits|
    decreases |bits|
  {
    match FindCode(b, bits, 0)
    case None => None
    case Some(i) =>
      var rest := bits[|b[i]|..];
      if i < 64 then Some((RunOf(i), rest))
      else
        match DecodeRun(b, rest)
        case None => None
        case Some((n, rest')) => Some((RunOf(i) + n, rest'))
  }

  function Repeat(b: bool, n: nat): (s: seq<bool>) { seq(n, i => b) }

  /** A row of `width` pixels (`true` is black): runs of alternating colour until the width is reached. */
  function DecodeRow(t: Books, black: bool, width: nat, bits: Bits): (r: Option<(seq<bool>, Bits)>)
    ensures r.Some? ==> |r.value.1| < |bits|
    decreases |bits|
  {
    match DecodeRun(t.Of(black), bits)
    case None => None
    case Some((n, rest)) =>
      if n > width then None
      else if n == width then Some((Repeat(black, n), rest))
      else
        match DecodeRow(t, !black, width - n, rest)
        case None => None
        case Some((row, rest')) => Some((Repeat(black, n) + row, rest'))
  }

  /**
   A page: an end-of-line before every row; an end-of-line that no row follows, or too few bits for one, ends the page.
   */
  function DecodePage(t: Books, width: nat, bits: Bits): (r: Option<seq<seq<bool>>>)
    decreases |bits|
  {
    if |bits| < |EOL| then Some([])
    else if !(EOL <= bits) then None
    else
      var rest := bits[|EOL|..];
      if rest == [] || EOL <= rest then Some([])
      else
        match DecodeRow(t, false, width, rest)
        case None => None
        case Some((row, rest')) =>
          match DecodePage(t, width, rest')
          case None => None
          case Some(rows) => Some([row] + rows)
  }

  // ----- what the encoder writes

  /** Make-up codes, the largest as often as it fits, then the terminating code of what is left. */
  function EncodeRun(b: Book, run: nat): (bits: Bits)
  {
    if run >= 2560 then b[103] + EncodeRun(b, run - 2560)
    else if run >= 64 then b[63 + run / 64] + b[run % 64]
    else b[run]
  }

  /** The length of the leading stretch of `px` equal to `cur`. */
  function Stretch(px: seq<Byte>, cur: Byte): (n: nat)
    ensures n <= |px| && (forall i | 0 <= i < n :: px[i] == cur) && (n < |px| ==> px[n] != cur)
  {
    if px == [] || px[0] != cur then 0 else 1 + Stretch(px[1..], cur)
  }

  /**
   The codes of a row of pixels (0 is white, anything else black) from a point where the last pixel value was `cur`.
   */
  function EncodeRow(t: Books, px: seq<Byte>, cur: Byte): (b: Bits)
    decreases |px|, px != [] && px[0] != cur
  {
    var n := Stretch(px, cur);
    EncodeRun(t.Of(cur != 0), n) + (if n == |px| then [] else EncodeRow(t, px[n..], px[n]))
  }

  function EncodeRows(t: Books, rows: seq<seq<Byte>>): (b: Bits)
  {
    if rows == [] then [] else EOL + EncodeRow(t, rows[0], 0) + EncodeRows(t, rows[1..])
  }

  /** The return to control: six end-of-lines. */
  function Eols(n: nat): (b: Bits)
    ensures |b| == 13 * n
  {
    if n == 0 then [] else EOL + Eols(n - 1)
  }

  // ----- runs

  lemma Comparable(a: Bits, b: Bits, s: Bits)
    ensures a <= s && b <= s ==> Starts(a, b) || Starts(b, a)
  {
    if a <= s && b <= s {
      assert a == s[..|a|] && b == s[..|b|];
      if |a| <= |b| { assert a == b[..|a|]; } else { assert b == a[..|b|]; }
    }
  }

  lemma {:induction false} FindCodeFindsIt(b: Book, i: nat, rest: Bits, j: nat)
    requires Decodable(b) && j <= i < |b|
    ensures FindCode(b, b[i] + rest, j) == Some(i)
    decreases i - j
  {
    var bits := b[i] + rest;
    if j < i {
      Comparable(b[j], b[i], bits);
      FindCodeFindsIt(b, i, rest, j + 1);
    }
  }

  lemma DecodeTerminating(b: Book, run: nat, bits: Bits, rest: Bits)
    requires Decodable(b) && run < 64 && bits == b[run] + rest
    ensures DecodeRun(b, bits) == Some((run, rest))
  {
    FindCodeFindsIt(b, run, rest, 0);
  }

  lemma DecodeMakeUp(b: Book, i: nat, bits: Bits, more: Bits, n: nat, rest: Bits)
    requires Decodable(b) && 64 <= i < |b| && bits == b[i] + more && DecodeRun(b, more) == Some((n, rest))
    ensures DecodeRun(b, bits) == Some((RunOf(i) + n, rest))
  {
    FindCodeFindsIt(b, i, more, 0);
    assert (b[i] + more)[|b[i]|..] == more;
  }

  lemma DecodeMiddleRun(b: Book, run: nat, bits: Bits, rest: Bits)
    requires Decodable(b) && 64 <= run < 2560 && bits == b[63 + run / 64] + b[run % 64] + rest
    ensures DecodeRun(b, bits) == Some((run, rest))
  {
    var (code, left) := (63 + run / 64, run % 64);
    var more := b[left] + rest;
    DecodeTerminating(b, left, more, rest);
    DecodeMakeUp(b, code, bits, more, left, rest);
  }

  lemma DecodeLongRun(b: Book, run: nat, bits: Bits, more: Bits, rest: Bits)
    requires Decodable(b) && run >= 2560 && bits == b[103] + more && DecodeRun(b, more) == Some((run - 2560, rest))
    ensures DecodeRun(b, bits) == Some((run, rest))
  {
    DecodeMakeUp(b, 103, bits, more, run - 2560, rest);
  }

  /** Runs of any length come back, and what follows them is untouched. */
  lemma {:induction false} DecodeRunInverts(b: Book, run: nat, bits: Bits, rest: Bits)
    requires Decodable(b) && bits == EncodeRun(b, run) + rest
    ensures DecodeRun(b, bits) == Some((run, rest))
  {
    if run >= 2560 {
      var more := EncodeRun(b, run - 2560) + rest;
      DecodeRunInverts(b, run - 2560, more, rest);
      assert bits == b[103] + more by { Bytes.Assoc3(b[103], EncodeRun(b, run - 2560), rest); }
      DecodeLongRun(b, run, bits, more, rest);
    } else if run >= 64 {
      DecodeMiddleRun(b, run, bits, rest);
    } else {
      DecodeTerminating(b, run, bits, rest);
    }
  }

  /** What a run starts with is a codeword, so never an end-of-line. */
  lemma RunStart(b: Book, run: nat, rest: Bits)
    requires Decodable(b)
    ensures EncodeRun(b, run) + rest != [] && !(EOL <= EncodeRun(b, run) + rest)
  {
    var bits := EncodeRun(b, run) + rest;
    var i := if run >= 2560 then 103 else if run >= 64 then 63 + run / 64 else run;
    assert b[i] == bits[..|b[i]|];
    Comparable(b[i], EOL, bits);
  }

  // ----- rows

  /** No two neighbouring pixels are black with different values. */
  predicate Bilevel(px: seq<Byte>)
  {
    forall i {:trigger Agree(px, i)} | 0 < i < |px| :: Agree(px, i)
  }

  predicate Agree(px: seq<Byte>, i: nat)
    requires 0 < i < |px|
  {
    px[i - 1] == 0 || px[i] == 0 || px[i - 1] == px[i]
  }

  function Black(px: seq<Byte>): (row: seq<bool>)
    ensures |row| == |px|
  {
    seq(|px|, i requires 0 <= i < |px| => px[i] != 0)
  }

  lemma Assoc(a: Bits, b: Bits, c: Bits, d: Bits)
    ensures (a + b + c) + d == a + (b + (c + d)) && (b + c) + d == b + (c + d)
  {
  }

  lemma DecodeRowStep(t: Books, black: bool, width: nat, bits: Bits, n: nat, more: Bits, row: seq<bool>, rest: Bits)
    requires DecodeRun(t.Of(black), bits) == Some((n, more)) && n < width
    requires DecodeRow(t, !black, width - n, more) == Some((row, rest))
    ensures DecodeRow(t, black, width, bits) == Some((Repeat(black, n) + row, rest))
  {
  }

  /** A bilevel row comes back, black where its pixels are non-zero, and what follows it is untouched. */
  lemma {:induction false} DecodeRowInverts(t: Books, px: seq<Byte>, cur: Byte, bits: Bits, rest: Bits)
    requires BothDecodable(t) && Bilevel(px)
    requires cur != 0 ==> px != [] && px[0] == cur
    requires bits == EncodeRow(t, px, cur) + rest
    ensures DecodeRow(t, cur != 0, |px|, bits) == Some((Black(px), rest))
    decreases |px|, px != [] && px[0] != cur
  {
    var n := Stretch(px, cur);
    var b := t.Of(cur != 0);
    StretchThenRest(px, cur);
    if n == |px| {
      assert bits == EncodeRun(b, n) + rest;
      DecodeRunInverts(b, n, bits, rest);
    } else {
      StretchAlternates(px, cur);
      var next := EncodeRow(t, px[n..], px[n]);
      Assoc([], EncodeRun(b, n), next, rest);
      DecodeRowInverts(t, px[n..], px[n], next + rest, rest);
      DecodeRunInverts(b, n, bits, next + rest);
      DecodeRowStep(t, cur != 0, |px|, bits, n, next + rest, Black(px[n..]), rest);
    }
  }

  lemma StretchThenRest(px: seq<Byte>, cur: Byte)
    ensures var n := Stretch(px, cur);
            Black(px) == Repeat(cur != 0, n) + Black(px[n..]) && (n == |px| ==> Black(px) == Repeat(cur != 0, n))
  {
    var n := Stretch(px, cur);
    var (all, front, rest) := (Black(px), Repeat(cur != 0, n), Black(px[n..]));
    forall i | 0 <= i < |px| ensures all[i] == (front + rest)[i] {
      if i < n { assert px[i] == cur; } else { assert px[n..][i - n] == px[i]; }
    }
  }

  lemma StretchAlternates(px: seq<Byte>, cur: Byte)
    requires Bilevel(px) && Stretch(px, cur) < |px|
    requires cur != 0 ==> px[0] == cur
    ensures var n := Stretch(px, cur);
            (px[n] != 0) == (cur == 0) && Bilevel(px[n..])
  {
    var n := Stretch(px, cur);
    if n > 0 { assert Agree(px, n); }
    forall i {:trigger Agree(px[n..], i)} | 0 < i < |px[n..]| ensures Agree(px[n..], i) {
      assert Agree(px, n + i);
    }
  }

  // ----- pages

  function BlackRows(rows: seq<seq<Byte>>): (r: seq<seq<bool>>)
  {
    if rows == [] then [] else [Black(rows[0])] + BlackRows(rows[1..])
  }

  predicate PageOk(rows: seq<seq<Byte>>, width: nat)
  {
    forall i | 0 <= i < |rows| :: |rows[i]| == width && Bilevel(rows[i])
  }

  /** The bits after the last row end the page: too short for an end-of-line, or an end-of-line that no row follows. */
  predicate EndsPage(tail: Bits) {
    |tail| < |EOL| || tail == EOL || EOL + EOL <= tail
  }

  lemma DecodePageStep(t: Books, width: nat, bits: Bits, rest: Bits, row: seq<bool>, more: Bits, rows: seq<seq<bool>>)
    requires bits == EOL + rest && rest != [] && !(EOL <= rest)
    requires DecodeRow(t, false, width, rest) == Some((row, more))
    requires DecodePage(t, width, more) == Some(rows)
    ensures DecodePage(t, width, bits) == Some([row] + rows)
  {
    assert bits[|EOL|..] == rest;
  }

  lemma DecodePageEnd(t: Books, width: nat, tail: Bits)
    requires EndsPage(tail)
    ensures DecodePage(t, width, tail) == Some([])
  {
    if EOL + EOL <= tail {
      assert EOL == (EOL + EOL)[..|EOL|] == tail[..|EOL|];
      assert EOL == (EOL + EOL)[|EOL|..] == tail[|EOL|..][..|EOL|];
    }
  }

  /** Every row of the page comes back. */
  lemma {:induction false} DecodePageInverts(t: Books, rows: seq<seq<Byte>>, width: nat, bits: Bits, tail: Bits)
    requires BothDecodable(t) && PageOk(rows, width) && EndsPage(tail)
    requires bits == EncodeRows(t, rows) + tail
    ensures DecodePage(t, width, bits) == Some(BlackRows(rows))
  {
    if rows == [] {
      assert bits == tail;
      DecodePageEnd(t, width, tail);
    } else {
      var more := EncodeRows(t, rows[1..]) + tail;
      DecodePageInverts(t, rows[1..], width, more, tail);
      var rest := EncodeRow(t, rows[0], 0) + more;
      DecodeRowInverts(t, rows[0], 0, rest, more);
      RowStart(t, rows[0], more);
      Assoc(EOL, EncodeRow(t, rows[0], 0), EncodeRows(t, rows[1..]), tail);
      DecodePageStep(t, width, bits, rest, Black(rows[0]), more, BlackRows(rows[1..]));
    }
  }

  lemma RowStart(t: Books, px: seq<Byte>, more: Bits)
    requires BothDecodable(t)
    ensures EncodeRow(t, px, 0) + more != [] && !(EOL <= EncodeRow(t, px, 0) + more)
  {
    var n := Stretch(px, 0);
    var rest := if n == |px| then [] else EncodeRow(t, px[n..], px[n]);
    assert EncodeRow(t, px, 0) + more == EncodeRun(t.white, n) + (rest + more);
    RunStart(t.white, n, rest + more);
  }

  // ----- the tables of the source as code books

  /** A table in the source's layout: the row number gives the run. */
  predicate TableShape(table: seq<Code>)
  {
    |table| == CODES && forall i | 0 <= i < CODES :: table[i].run == RunOf(i) && table[i].len >= 1
  }

  function BookOf(table: seq<Code>): (b: Book)
    requires TableShape(table)
  {
    seq(CODES, i requires 0 <= i < CODES => BitsOf(table[i].code, table[i].len))
  }

  function TableOf(white: bool): (table: seq<Code>)
    ensures TableShape(table)
  {
    var table := seq(CODES, i requires 0 <= i < CODES => Row(white, i));
    assert TableShape(table) by {
      forall i | 0 <= i < CODES ensures table[i].run == RunOf(i) && table[i].len >= 1 { TableOk(white, i, 0); }
    }
    table
  }

  function Tables(): (t: Books)
  {
    Books(BookOf(TableOf(true)), BookOf(TableOf(false)))
  }

  lemma WordIs(white: bool, i: nat)
    requires i < CODES
    ensures BookOf(TableOf(white))[i] == CodeBits(white, i)
  {
  }

  lemma WordsClear(white: bool, i: nat, j: nat)
    requires i < CODES && j < CODES
    ensures var b := BookOf(TableOf(white));
            && (Starts(b[i], b[j]) ==> i == j)
            && !Starts(b[i], EOL) && !Starts(EOL, b[i])
  {
    WordIs(white, i);
    WordIs(white, j);
    if CodeBits(white, i) <= CodeBits(white, j) { PrefixFree(white, i, j); }
    if CodeBits(white, i) <= EOL { NoCodeStartsEol(white, i, EOL); }
    NoCodeStartsEol(white, i, CodeBits(white, i));
  }

  /** Both tables of the source are prefix-free and keep clear of the end-of-line code. */
  lemma TablesDecodable()
    ensures BothDecodable(Tables())
  {
    BookDecodable(true);
    BookDecodable(false);
  }

  lemma BookDecodable(white: bool)
    ensures Decodable(BookOf(TableOf(white)))
  {
    var b := BookOf(TableOf(white));
    forall i, j {:trigger Starts(b[i], b[j])} | 0 <= i < |b| && 0 <= j < |b| ensures Starts(b[i], b[j]) ==> i == j {
      WordsClear(white, i, j);
    }
    forall i {:trigger Starts(b[i], EOL)} {:trigger Starts(EOL, b[i])} | 0 <= i < |b|
      ensures !Starts(b[i], EOL) && !Starts(EOL, b[i])
    {
      WordsClear(white, i, i);
    }
  }

  // ----- the code

  /** Appends the low `len` bits of `code`, most significant first. */
  method PushWord(bits: Bits, len: nat, code: nat) returns (out: Bits)
    ensures out == bits + BitsOf(code, len)
  {
    out := bits;
    var i: nat := len;
    while i > 0
      invariant i <= len
      invariant out + BitsOf(code, i) == bits + BitsOf(code, len)
    {
      i := i - 1;
      var bit := code / Modular.Pow2(i) % 2 == 1;
      assert out + BitsOf(code, i + 1) == (out + [bit]) + BitsOf(code, i);
      out := out + [bit];
    }
    assert out == out + BitsOf(code, 0);
  }

  /** Greedy make-up codes from the largest down, then the terminating code found by searching the table. */
  method PushCode(bits: Bits, table: seq<Code>, run: nat) returns (out: Bits)
    requires TableShape(table)
    ensures out == bits + EncodeRun(BookOf(table), run)
  {
    ghost var b := BookOf(table);
    out := bits;
    var remaining: nat := run;
    var i := CODES;
    while i > 64
      invariant 64 <= i <= CODES
      invariant i < CODES ==> remaining < RunOf(i)
      invariant out + EncodeRun(b, remaining) == bits + EncodeRun(b, run)
    {
      i := i - 1;
      while remaining >= table[i].run
        invariant i + 1 < CODES ==> remaining < RunOf(i + 1)
        invariant out + EncodeRun(b, remaining) == bits + EncodeRun(b, run)
      {
        MakeUpStep(b, i, remaining);
        Assoc([], out, b[i], EncodeRun(b, remaining - table[i].run));
        out := PushWord(out, table[i].len, table[i].code);
        remaining := remaining - table[i].run;
      }
    }
    var j := 0;
    while j < CODES && !(table[j].run == remaining && table[j].run < 64)
      invariant 0 <= j <= remaining < 64
    {
      j := j + 1;
    }
    out := PushWord(out, table[j].len, table[j].code);
  }

  /** The largest make-up code that fits is the first code of the run. */
  lemma MakeUpStep(b: Book, i: nat, remaining: nat)
    requires 64 <= i < CODES && remaining >= RunOf(i) && (i + 1 < CODES ==> remaining < RunOf(i + 1))
    ensures EncodeRun(b, remaining) == b[i] + EncodeRun(b, remaining - RunOf(i))
  {
    if i < 103 { assert remaining / 64 == i - 63; }
  }

  /** Where the pixel value changes, and to what; before the row it is 0. */
  function ChangesFrom(px: seq<Byte>, cur: Byte, base: nat): (c: seq<(nat, Byte)>)
  {
    if px == [] then []
    else if px[0] != cur then [(base, px[0])] + ChangesFrom(px[1..], px[0], base + 1)
    else ChangesFrom(px[1..], cur, base + 1)
  }

  lemma FirstDiffers(px: seq<Byte>, cur: Byte, base: nat)
    requires px != [] && px[0] != cur
    ensures ChangesFrom(px, cur, base) == [(base, px[0])] + ChangesFrom(px, px[0], base)
  {
  }

  /** The first change ends the leading stretch. */
  lemma {:induction false} FirstChange(px: seq<Byte>, cur: Byte, base: nat)
    ensures var n := Stretch(px, cur);
            ChangesFrom(px, cur, base)
            == if n == |px| then [] else [(base + n, px[n])] + ChangesFrom(px[n..], px[n], base + n)
  {
    if px != [] && px[0] == cur {
      FirstChange(px[1..], cur, base + 1);
      var n := Stretch(px[1..], cur);
      assert Stretch(px, cur) == n + 1;
      if n < |px[1..]| { assert px[1..][n..] == px[n + 1..] && px[1..][n] == px[n + 1]; }
    } else if px != [] {
      assert Stretch(px, cur) == 0 && px[0..] == px;
      FirstDiffers(px, cur, base);
    }
  }

  method FindChanges(row: seq<Byte>) returns (changes: seq<(nat, Byte)>)
    ensures changes == ChangesFrom(row, 0, 0)
  {
    changes := [];
    var cur: Byte := 0;
    for i := 0 to |row|
      invariant changes + ChangesFrom(row[i..], cur, i) == ChangesFrom(row, 0, 0)
    {
      assert row[i..][1..] == row[i + 1..];
      if row[i] != cur {
        Bytes.Assoc3(changes, [(i, row[i])], ChangesFrom(row[i + 1..], row[i], i + 1));
        changes := changes + [(i, row[i])];
        cur := row[i];
      }
    }
    assert changes == changes + ChangesFrom(row[|row|..], cur, |row|);
  }

  /** What the first of the remaining changes means for the codes still to be written after `out`. */
  lemma ChangeStep(t: Books, row: seq<Byte>, pos: nat, cur: Byte, black: bool, changes: seq<(nat, Byte)>, out: Bits)
    requires pos <= |row| && black == (cur != 0) && changes == ChangesFrom(row[pos..], cur, pos)
    ensures changes != [] ==>
              var (px, c) := changes[0];
              && pos <= px < |row| && c == row[px]
              && changes[1..] == ChangesFrom(row[px..], c, px)
              && (out + EncodeRun(t.Of(black), px - pos)) + EncodeRow(t, row[px..], c)
                == out + EncodeRow(t, row[pos..], cur)
    ensures changes == [] ==> EncodeRow(t, row[pos..], cur) == EncodeRun(t.Of(black), |row| - pos)
  {
    var n := Stretch(row[pos..], cur);
    ChangeFacts(row, pos, cur, changes, n);
    var tail := row[pos + n..];
    assert tail == row[pos..][n..];
    NextCode(t, row[pos..], cur, n, tail, black, out);
    if changes != [] { assert changes[0] == (pos + n, tail[0]); }
  }

  /** One code more, and what is left of the row. */
  lemma NextCode(t: Books, rest: seq<Byte>, cur: Byte, n: nat, tail: seq<Byte>, black: bool, out: Bits)
    requires n == Stretch(rest, cur) && tail == rest[n..] && black == (cur != 0)
    ensures tail == [] ==> EncodeRow(t, rest, cur) == EncodeRun(t.Of(black), n)
    ensures tail != [] ==>
              (out + EncodeRun(t.Of(black), n)) + EncodeRow(t, tail, tail[0]) == out + EncodeRow(t, rest, cur)
  {
    RowSplit(t, rest, cur, n, tail, black);
    var code := EncodeRun(t.Of(black), n);
    if tail == [] {
      assert code + [] == code;
    } else {
      Bytes.Assoc3(out, code, EncodeRow(t, tail, tail[0]));
    }
  }

  /** What the first of the remaining changes says about the row. */
  lemma ChangeFacts(row: seq<Byte>, pos: nat, cur: Byte, changes: seq<(nat, Byte)>, n: nat)
    requires pos <= |row| && changes == ChangesFrom(row[pos..], cur, pos) && n == Stretch(row[pos..], cur)
    ensures changes == [] <==> pos + n == |row|
    ensures changes != [] ==>
              var (px, c) := changes[0];
              px == pos + n < |row| && c == row[px] && changes[1..] == ChangesFrom(row[px..], c, px)
  {
    FirstChange(row[pos..], cur, pos);
    assert row[pos..][n..] == row[pos + n..];
  }

  lemma RowSplit(t: Books, rest: seq<Byte>, cur: Byte, n: nat, tail: seq<Byte>, black: bool)
    requires n == Stretch(rest, cur) && tail == rest[n..] && black == (cur != 0)
    ensures EncodeRow(t, rest, cur)
            == EncodeRun(t.Of(black), n) + (if tail == [] then [] else EncodeRow(t, tail, tail[0]))
  {
  }

  /** The code of one stretch, its length cast to `u32`. */
  method PushStretch(bits: Bits, white: seq<Code>, black: seq<Code>, color: bool, n: nat) returns (out: Bits)
    requires TableShape(white) && TableShape(black) && n < 0x1_0000_0000
    ensures out == bits + EncodeRun(Books(BookOf(white), BookOf(black)).Of(color), n)
  {
    var run := n % 0x1_0000_0000;
    Modular.Unique(n, 0x1_0000_0000, 0, n);
    if !color {
      out := PushCode(bits, white, run);
    } else {
      out := PushCode(bits, black, run);
    }
  }

  /** One row: a code for every stretch between changes, and one for the last. */
  method PushRow(bits: Bits, white: seq<Code>, black: seq<Code>, row: seq<Byte>, width: nat) returns (out: Bits)
    requires TableShape(white) && TableShape(black) && |row| == width < 0x1_0000_0000
    ensures out == bits + EncodeRow(Books(BookOf(white), BookOf(black)), row, 0)
  {
    ghost var t := Books(BookOf(white), BookOf(black));
    var changes := FindChanges(row);
    out := bits;
    var color := false;
    var pos: nat := 0;
    ghost var cur: Byte := 0;
    ghost var goal := bits + EncodeRow(t, row, 0);
    assert row[0..] == row;
    while changes != []
      invariant pos <= width && color == (cur != 0)
      invariant changes == ChangesFrom(row[pos..], cur, pos)
      invariant out + EncodeRow(t, row[pos..], cur) == goal
      decreases |changes|
    {
      var (px, c) := changes[0];
      ChangeStep(t, row, pos, cur, color, changes, out);
      out := PushStretch(out, white, black, color, px - pos);
      pos := px;
      color := c != 0;
      cur := c;
      changes := changes[1..];
    }
    ChangeStep(t, row, pos, cur, color, [], out);
    out := PushStretch(out, white, black, color, width - pos);
  }

  // ----- bytes

  /** The low `n` bits of a number, most significant first. */
  function Digits(v: nat, n: nat): (b: Bits)
    ensures |b| == n
  {
    if n == 0 then [] else Digits(v / 2, n - 1) + [v % 2 == 1]
  }

  function Unpack(bytes: seq<Byte>): (b: Bits)
    ensures |b| == 8 * |bytes|
  {
    if bytes == [] then [] else Unpack(bytes[..|bytes| - 1]) + Digits(bytes[|bytes| - 1], 8)
  }

  /** Folding bits with `(a << 1) | b`. */
  function Fold(b: Bits): (v: nat)
  {
    if b == [] then 0 else 2 * Fold(b[..|b| - 1]) + (if b[|b| - 1] then 1 else 0)
  }

  lemma {:induction false} DigitsOfFold(b: Bits)
    ensures Fold(b) < Modular.Pow2(|b|) && Digits(Fold(b), |b|) == b
  {
    if b != [] { DigitsOfFold(b[..|b| - 1]); }
  }

  method PackByte(chunk: Bits) returns (v: Byte)
    requires |chunk| == 8
    ensures Digits(v, 8) == chunk
  {
    var a: nat := 0;
    for i := 0 to 8
      invariant a == Fold(chunk[..i])
    {
      assert chunk[..i + 1][..i] == chunk[..i];
      a := 2 * a + (if chunk[i] then 1 else 0);
    }
    assert chunk[..8] == chunk;
    DigitsOfFold(chunk);
    Powers(8);
    v := a;
  }

  /** `chunks(8)` folded to bytes. */
  method Pack(bits: Bits) returns (bytes: seq<Byte>)
    requires |bits| % 8 == 0
    ensures Unpack(bytes) == bits
  {
    bytes := [];
    var i := 0;
    while i < |bits|
      invariant 0 <= i <= |bits| && i % 8 == 0
      invariant Unpack(bytes) == bits[..i]
    {
      var v := PackByte(bits[i..i + 8]);
      assert (bytes + [v])[..|bytes|] == bytes;
      assert bits[..i] + bits[i..i + 8] == bits[..i + 8];
      bytes := bytes + [v];
      i := i + 8;
    }
    assert bits[..i] == bits;
  }

  // ----- pages of bytes

  /** The bits of an encoded page: its rows, the return to control, and zeros up to a whole byte. */
  predicate PageBits(t: Books, rows: seq<seq<Byte>>, bits: Bits)
  {
    var content := EncodeRows(t, rows) + Eols(6);
    && |content| <= |bits| < |content| + 8 && |bits| % 8 == 0
    && bits == content + Repeat(false, |bits| - |content|)
  }

  method EncodeMhPage(rows: seq<seq<Byte>>, width: nat) returns (bytes: seq<Byte>)
    requires width < 0x1_0000_0000 && forall i | 0 <= i < |rows| :: |rows[i]| == width
    ensures PageBits(Tables(), rows, Unpack(bytes))
  {
    var bits := PushRows(TableOf(true), TableOf(false), rows, width);
    bits := PushEols(bits);
    bits := PadToByte(bits);
    bytes := Pack(bits);
  }

  /** What is there, with `n` more end-of-lines, is the goal. */
  ghost predicate StillEols(goal: Bits, out: Bits, n: nat) { out + Eols(n) == goal }

  lemma EolStep(goal: Bits, out: Bits, n: nat)
    requires n > 0 && StillEols(goal, out, n)
    ensures StillEols(goal, out + EOL, n - 1)
  {
    Bytes.Assoc3(out, EOL, Eols(n - 1));
  }

  /** Appends the return to control. */
  method PushEols(bits: Bits) returns (out: Bits)
    ensures out == bits + Eols(6)
  {
    out := bits;
    ghost var goal := bits + Eols(6);
    for i := 0 to 6
      invariant StillEols(goal, out, 6 - i)
    {
      EolStep(goal, out, 6 - i);
      out := out + EOL;
    }
    assert out + [] == out;
  }

  method PushRows(white: seq<Code>, black: seq<Code>, rows: seq<seq<Byte>>, width: nat) returns (bits: Bits)
    requires TableShape(white) && TableShape(black)
    requires width < 0x1_0000_0000 && forall i | 0 <= i < |rows| :: |rows[i]| == width
    ensures bits == EncodeRows(Books(BookOf(white), BookOf(black)), rows)
  {
    ghost var t := Books(BookOf(white), BookOf(black));
    bits := [];
    assert rows[0..] == rows;
    for i := 0 to |rows|
      invariant bits + EncodeRows(t, rows[i..]) == EncodeRows(t, rows)
    {
      assert rows[i..][1..] == rows[i + 1..];
      Assoc(bits, EOL, EncodeRow(t, rows[i], 0), EncodeRows(t, rows[i + 1..]));
      Assoc(EOL, EncodeRow(t, rows[i], 0), EncodeRows(t, rows[i + 1..]), []);
      bits := PushRow(bits + EOL, white, black, rows[i], width);
    }
  }

  method PadToByte(bits: Bits) returns (out: Bits)
    ensures |bits| <= |out| < |bits| + 8 && |out| % 8 == 0
    ensures out == bits + Repeat(false, |out| - |bits|)
  {
    out := bits;
    ghost var whole := (|bits| + 7) / 8 * 8;
    while |out| % 8 != 0
      invariant |bits| <= |out| <= whole
      invariant out == bits + Repeat(false, |out| - |bits|)
      decreases whole - |out|
    {
      assert Repeat(false, |out| - |bits|) + [false] == Repeat(false, |out| + 1 - |bits|);
      out := out + [false];
    }
  }

  /** The form without the return to control: the last nine bytes are cut off. */
  method EncodeMhPageNoRtc(rows: seq<seq<Byte>>, width: nat) returns (bytes: seq<Byte>)
    requires width < 0x1_0000_0000 && forall i | 0 <= i < |rows| :: |rows[i]| == width
    ensures exists bits :: PageBits(Tables(), rows, bits) && |bits| >= 72 && Unpack(bytes) == bits[..|bits| - 72]
  {
    var full := EncodeMhPage(rows, width);
    var end := |full| - 9;
    UnpackPrefix(full, end);
    bytes := full[..end];
  }

  lemma {:induction false} UnpackPrefix(bytes: seq<Byte>, k: nat)
    requires k <= |bytes|
    ensures Unpack(bytes[..k]) == Unpack(bytes)[..8 * k]
  {
    if k == |bytes| {
      assert bytes[..k] == bytes;
    } else {
      var m := |bytes| - 1;
      UnpackPrefix(bytes[..m], k);
      assert bytes[..m][..k] == bytes[..k];
    }
  }

  // ----- main results

  /** What is left of the return to control ends the page. */
  lemma KeptTail(rowBits: Bits, bits: Bits, tail: Bits)
    requires var content := rowBits + Eols(6);
             && |content| <= |bits| < |content| + 8 && bits == content + Repeat(false, |bits| - |content|)
             && tail == bits[|rowBits|..|bits| - 72]
    ensures EndsPage(tail)
  {
    if |tail| == 13 {
      assert Eols(6)[..13] == EOL;
      assert tail == Eols(6)[..13];
    }
  }

  lemma PageDecodes(t: Books, rows: seq<seq<Byte>>, width: nat, bits: Bits)
    requires BothDecodable(t) && PageOk(rows, width) && PageBits(t, rows, bits)
    ensures DecodePage(t, width, bits) == Some(BlackRows(rows))
  {
    var pad := Repeat(false, |bits| - |EncodeRows(t, rows) + Eols(6)|);
    Bytes.Assoc3(EncodeRows(t, rows), Eols(6), pad);
    assert Eols(6) == EOL + (EOL + Eols(4));
    assert EOL + EOL <= Eols(6) + pad;
    DecodePageInverts(t, rows, width, bits, Eols(6) + pad);
  }

  lemma CutPageDecodes(t: Books, rows: seq<seq<Byte>>, width: nat, bits: Bits, kept: Bits)
    requires BothDecodable(t) && PageOk(rows, width) && PageBits(t, rows, bits)
    requires |bits| >= 72 && kept == bits[..|bits| - 72]
    ensures EncodeRows(t, rows) <= kept && DecodePage(t, width, kept) == Some(BlackRows(rows))
  {
    var rowBits := EncodeRows(t, rows);
    var tail := kept[|rowBits|..];
    assert kept == rowBits + tail;
    KeptTail(rowBits, bits, tail);
    DecodePageInverts(t, rows, width, kept, tail);
  }

  /** The decoder recovers every row of every encoded page, through the return to control and the byte padding. */
  lemma PageRoundTrip(rows: seq<seq<Byte>>, width: nat, bits: Bits)
    requires PageOk(rows, width) && PageBits(Tables(), rows, bits)
    ensures DecodePage(Tables(), width, bits) == Some(BlackRows(rows))
  {
    TablesDecodable();
    PageDecodes(Tables(), rows, width, bits);
  }

  /** So does it without the return to control: cutting nine bytes off never reaches a bit of a row. */
  lemma NoRtcRoundTrip(rows: seq<seq<Byte>>, width: nat, bits: Bits)
    requires PageOk(rows, width) && PageBits(Tables(), rows, bits)
    ensures var kept := bits[..|bits| - 72];
            EncodeRows(Tables(), rows) <= kept && DecodePage(Tables(), width, kept) == Some(BlackRows(rows))
  {
    TablesDecodable();
    CutPageDecodes(Tables(), rows, width, bits, bits[..|bits| - 72]);
  }

  predicate ZeroOne(rows: seq<seq<Byte>>)
  {
    forall i, k | 0 <= i < |rows| && 0 <= k < |rows[i]| :: rows[i][k] <= 1
  }

  lemma {:induction false} BlackRowsInjective(a: seq<seq<Byte>>, b: seq<seq<Byte>>)
    requires ZeroOne(a) && ZeroOne(b) && BlackRows(a) == BlackRows(b)
    ensures a == b
  {
    if a != [] && b != [] {
      assert Black(a[0]) == BlackRows(a)[0] == BlackRows(b)[0] == Black(b[0]);
      forall k | 0 <= k < |a[0]| ensures a[0][k] == b[0][k] {
        assert Black(a[0])[k] == Black(b[0])[k];
      }
      assert a[0] == b[0];
      assert BlackRows(a)[1..] == BlackRows(b)[1..];
      BlackRowsInjective(a[1..], b[1..]);
      assert a == [a[0]] + a[1..] && b == [b[0]] + b[1..];
    }
  }

  /**
   Different pages of 0/1 pixels of one width never encode to the same bytes, with or without the return to control.
   */
  lemma EncodingInjective(a: seq<seq<Byte>>, b: seq<seq<Byte>>, width: nat, bitsA: Bits, bitsB: Bits)
    requires ZeroOne(a) && ZeroOne(b)
    requires (forall i | 0 <= i < |a| :: |a[i]| == width) && (forall i | 0 <= i < |b| :: |b[i]| == width)
    requires PageBits(Tables(), a, bitsA) && PageBits(Tables(), b, bitsB)
    ensures bitsA == bitsB ==> a == b
    ensures bitsA[..|bitsA| - 72] == bitsB[..|bitsB| - 72] ==> a == b
  {
    ZeroOneOk(a, width);
    ZeroOneOk(b, width);
    PageRoundTrip(a, width, bitsA);
    PageRoundTrip(b, width, bitsB);
    NoRtcRoundTrip(a, width, bitsA);
    NoRtcRoundTrip(b, width, bitsB);
    if BlackRows(a) == BlackRows(b) { BlackRowsInjective(a, b); }
  }

  lemma ZeroOneOk(rows: seq<seq<Byte>>, width: nat)
    requires ZeroOne(rows) && forall i | 0 <= i < |rows| :: |rows[i]| == width
    ensures PageOk(rows, width)
  {
  }

  /** A stretch of a row: its colour and length. */
  datatype Run = Run(black: bool, length: nat)

  /** The stretches a row is cut into. */
  function Runs(px: seq<Byte>, cur: Byte): (rs: seq<Run>)
    decreases |px|, px != [] && px[0] != cur
  {
    var n := Stretch(px, cur);
    [Run(cur != 0, n)] + (if n == |px| then [] else Runs(px[n..], px[n]))
  }

  /** The codes of the stretches, one after the other. */
  function Codes(t: Books, rs: seq<Run>): (b: Bits)
  {
    if rs == [] then [] else EncodeRun(t.Of(rs[0].black), rs[0].length) + Codes(t, rs[1..])
  }

  lemma CodesCons(t: Books, r: Run, rs: seq<Run>)
    ensures Codes(t, [r] + rs) == EncodeRun(t.Of(r.black), r.length) + Codes(t, rs)
  {
    assert ([r] + rs)[1..] == rs;
  }

  /** What is written for a row is exactly the codes of its stretches. */
  lemma {:induction false} RowIsCodes(t: Books, px: seq<Byte>, cur: Byte)
    ensures EncodeRow(t, px, cur) == Codes(t, Runs(px, cur))
    decreases |px|, px != [] && px[0] != cur
  {
    var n := Stretch(px, cur);
    if n == |px| {
      CodesCons(t, Run(cur != 0, n), []);
    } else {
      RowIsCodes(t, px[n..], px[n]);
      CodesCons(t, Run(cur != 0, n), Runs(px[n..], px[n]));
    }
  }

  /**
   Clause 4.1 of ITU-T T.4 wants the codes of a row to alternate in colour. The row is written as the codes of its
   stretches, and these alternate exactly when no two neighbouring pixels are black with different values, because the
   encoder takes any step between values for a change of colour.
   */
  lemma ColoursAlternateIff(t: Books, px: seq<Byte>)
    ensures EncodeRow(t, px, 0) == Codes(t, Runs(px, 0)) && (Alternates(Runs(px, 0)) <==> Bilevel(px))
  {
    RowIsCodes(t, px, 0);
    RunsAlternateIff(px, 0);
  }

  /** A row of two pixels, both black, of different values: two black codes in a row. */
  lemma TwoBlackCodes(t: Books)
    ensures EncodeRow(t, [1, 2], 0) == Codes(t, [Run(false, 0), Run(true, 1), Run(true, 1)])
    ensures !Alternates(Runs([1, 2], 0))
  {
    var px: seq<Byte> := [1, 2];
    assert px[0..] == px && px[1..] == [2];
    assert Runs([2], 2) == [Run(true, 1)];
    assert Runs(px, 1) == [Run(true, 1), Run(true, 1)];
    assert Runs(px, 0) == [Run(false, 0), Run(true, 1), Run(true, 1)];
    ColoursAlternateIff(t, px);
  }

  lemma {:induction false} RunsAlternateIff(px: seq<Byte>, cur: Byte)
    requires cur != 0 ==> px != [] && px[0] == cur
    ensures Alternates(Runs(px, cur)) <==> Bilevel(px)
    decreases |px|, px != [] && px[0] != cur
  {
    var n := Stretch(px, cur);
    if n == |px| {
      forall i {:trigger Agree(px, i)} | 0 < i < |px| ensures Agree(px, i) {}
    } else {
      RunsAlternateIff(px[n..], px[n]);
      var rest := Runs(px[n..], px[n]);
      assert rest[0].black == (px[n] != 0);
      AlternateCons(Run(cur != 0, n), rest);
      BilevelSplit(px, cur);
    }
  }

  predicate Alternates(rs: seq<Run>) { forall k | 0 < k < |rs| :: rs[k].black != rs[k - 1].black }

  lemma AlternateCons(x: Run, d: seq<Run>)
    requires d != []
    ensures Alternates([x] + d) <==> x.black != d[0].black && Alternates(d)
  {
    var c := [x] + d;
    if Alternates(c) {
      assert c[1].black != c[0].black;
      forall k | 0 < k < |d| ensures d[k].black != d[k - 1].black { assert c[k + 1].black != c[k].black; }
    }
    if x.black != d[0].black && Alternates(d) {
      forall k | 0 < k < |c| ensures c[k].black != c[k - 1].black {
        if k > 1 { assert d[k - 1].black != d[k - 2].black; }
      }
    }
  }

  lemma BilevelSplit(px: seq<Byte>, cur: Byte)
    requires Stretch(px, cur) < |px| && (cur != 0 ==> px[0] == cur)
    ensures var n := Stretch(px, cur);
            Bilevel(px) <==> Bilevel(px[n..]) && (px[n] != 0) != (cur != 0)
  {
    var n := Stretch(px, cur);
    if Bilevel(px) { StretchAlternates(px, cur); }
    if Bilevel(px[n..]) && (px[n] != 0) != (cur != 0) {
      forall i {:trigger Agree(px, i)} | 0 < i < |px| ensures Agree(px, i) {
        if i > n { assert Agree(px[n..], i - n); }
      }
    }
  }
}

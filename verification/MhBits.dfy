/** Codewords as bit strings, and the prefix-freeness of the tables. Bits are `true` for 1. */
module MhBits {
  import opened MhTables
  import Modular

  type Bits = seq<bool>

  /** The low `len` bits of `code`, most significant first. */
  function BitsOf(code: nat, len: nat): (b: Bits)
    ensures |b| == len
  {
    if len == 0 then [] else [code / Modular.Pow2(len - 1) % 2 == 1] + BitsOf(code, len - 1)
  }

  function CodeBits(white: bool, i: nat): (b: Bits)
    requires i < CODES
  {
    BitsOf(Row(white, i).code, Row(white, i).len)
  }

  /** The number a bit string starts when it is the front of a `k`-bit window. */
  function Left(b: Bits, k: nat): (x: nat)
    requires |b| <= k
  {
    if b == [] then 0 else (if b[0] then Modular.Pow2(k - 1) else 0) + Left(b[1..], k - 1)
  }

  lemma {:induction false} LeftBound(b: Bits, k: nat)
    requires |b| <= k
    ensures Left(b, k) + Modular.Pow2(k - |b|) <= Modular.Pow2(k)
  {
    if b != [] { LeftBound(b[1..], k - 1); }
  }

  lemma {:induction false} LeftAppend(a: Bits, c: Bits, k: nat)
    requires |a| + |c| <= k
    ensures Left(a + c, k) == Left(a, k) + Left(c, k - |a|)
  {
    if a == [] {
      assert a + c == c;
    } else {
      LeftAppend(a[1..], c, k - 1);
      assert (a + c)[1..] == a[1..] + c;
    }
  }

  /** A string that extends `a` starts one of the windows that start with `a`. */
  lemma PrefixInterval(a: Bits, b: Bits, k: nat)
    requires a <= b && |b| <= k
    ensures Left(a, k) <= Left(b, k) < Left(a, k) + Modular.Pow2(k - |a|)
  {
    assert b == a + b[|a|..];
    AppendInterval(a, b[|a|..], k);
  }

  lemma AppendInterval(a: Bits, c: Bits, k: nat)
    requires |a| + |c| <= k
    ensures Left(a, k) <= Left(a + c, k) < Left(a, k) + Modular.Pow2(k - |a|)
  {
    LeftAppend(a, c, k);
    LeftBound(c, k - |a|);
  }

  lemma SplitLowBits(code: nat, n: nat)
    ensures code % Modular.Pow2(n + 1) == (code / Modular.Pow2(n) % 2) * Modular.Pow2(n) + code % Modular.Pow2(n)
  {
    var p := Modular.Pow2(n);
    var d, r := code / p, code % p;
    var e, q := d / 2, d % 2;
    assert code == (2 * p) * e + (q * p + r) by {
      assert p * (2 * e + q) == (2 * p) * e + q * p;
    }
    assert q == 0 || q == 1;
    assert 0 <= q * p + r < 2 * p;
    Modular.Unique(code, 2 * p, e, q * p + r);
  }

  /** The bits of a codeword, read back as a number. */
  lemma {:induction false} LeftBits(code: nat, len: nat, m: nat)
    ensures Left(BitsOf(code, len), len + m) == (code % Modular.Pow2(len)) * Modular.Pow2(m)
  {
    if len == 0 {
      assert code % 1 == 0;
    } else {
      LeftBits(code, len - 1, m);
      SplitLowBits(code, len - 1);
      Modular.Pow2Sum(len - 1, m);
      var b := BitsOf(code, len);
      assert b[1..] == BitsOf(code, len - 1);
      Distribute(code / Modular.Pow2(len - 1) % 2, Modular.Pow2(len - 1), code % Modular.Pow2(len - 1),
        Modular.Pow2(m));
    }
  }

  lemma Distribute(q: nat, p: nat, r: nat, m: nat)
    requires q == 0 || q == 1
    ensures (q * p + r) * m == (if q == 1 then p * m else 0) + r * m
  {
  }

  lemma LowIsShift(len: nat, code: nat)
    requires 1 <= len <= 13
    ensures Low(len, code) == code * Modular.Pow2(13 - len)
    ensures Low(len, code + 1) == Low(len, code) + Modular.Pow2(13 - len)
  {
    Powers(13 - len);
  }

  lemma CodeFits(c: Code)
    requires 1 <= c.len <= 13 && Low(c.len, c.code) < 8192
    ensures c.code % Modular.Pow2(c.len) == c.code
  {
    Powers(c.len);
    Modular.Unique(c.code, Modular.Pow2(c.len), 0, c.code);
  }

  /** A codeword's own window, and the width of the block of windows that start with it. */
  lemma CodeWindow(white: bool, i: nat)
    requires i < CODES
    ensures var c := Row(white, i);
            && 1 <= c.len <= 13
            && Left(CodeBits(white, i), 13) == Low(c.len, c.code) >= 32
            && Low(c.len, c.code + 1) == Low(c.len, c.code) + Modular.Pow2(13 - c.len)
  {
    TableOk(white, i, 0);
    var c := Row(white, i);
    WordWindow(c);
  }

  lemma WordWindow(c: Code)
    requires 1 <= c.len <= 13 && Low(c.len, c.code) < 8192
    ensures Left(BitsOf(c.code, c.len), 13) == Low(c.len, c.code)
    ensures Low(c.len, c.code + 1) == Low(c.len, c.code) + Modular.Pow2(13 - c.len)
  {
    var shift := 13 - c.len;
    LowIsShift(c.len, c.code);
    assert Left(BitsOf(c.code, c.len), 13) == c.code * Modular.Pow2(shift) by {
      LeftBits(c.code, c.len, shift);
      CodeFits(c);
    }
  }

  lemma Powers(n: nat)
    requires n <= 13
    ensures Modular.Pow2(n) == match n
                       case 0 => 1 case 1 => 2 case 2 => 4 case 3 => 8 case 4 => 16 case 5 => 32 case 6 => 64
                       case 7 => 128 case 8 => 256 case 9 => 512 case 10 => 1024 case 11 => 2048 case 12 => 4096
                       case _ => 8192
  {
    if n > 0 { Powers(n - 1); }
  }

  lemma {:induction false} WindowBlock(white: bool, i: nat, s: Bits)
    requires i < CODES && CodeBits(white, i) <= s && |s| <= 13
    ensures StartsWith(Row(white, i), Left(s, 13))
  {
    CodeWindow(white, i);
    PrefixInterval(CodeBits(white, i), s, 13);
  }

  /** No codeword is the beginning of another of its colour. */
  lemma PrefixFree(white: bool, i: nat, j: nat)
    requires i < CODES && j < CODES && CodeBits(white, i) <= CodeBits(white, j)
    ensures i == j
  {
    CodeWindow(white, j);
    WindowBlock(white, i, CodeBits(white, j));
    WindowBlock(white, j, CodeBits(white, j));
    TableOk(white, i, Left(CodeBits(white, j), 13));
    TableOk(white, j, Left(CodeBits(white, j), 13));
  }

  /** The end-of-line code followed by the tag bit for one-dimensional coding. */
  const EOL: Bits := [false, false, false, false, false, false, false, false, false, false, false, true, true]

  lemma EolWindow()
    ensures Left(EOL, 13) == 3
  {
    var b := EOL;
    assert Left(b, 13) == Left(b[11..], 2) by { ZerosVanish(b, 11, 13); }
    assert b[11..] == [true, true];
    assert [true, true][1..] == [true];
    assert Left([true], 1) == 1;
  }

  lemma {:induction false} ZerosVanish(b: Bits, n: nat, k: nat)
    requires n <= |b| <= k && forall i | 0 <= i < n :: !b[i]
    ensures Left(b, k) == Left(b[n..], k - n)
  {
    if n > 0 {
      ZerosVanish(b[1..], n - 1, k - 1);
      assert b[1..][n - 1..] == b[n..];
    } else {
      assert b[0..] == b;
    }
  }

  /** Nothing starts both with a codeword and with the end-of-line code. */
  lemma NoCodeStartsEol(white: bool, i: nat, s: Bits)
    requires i < CODES && CodeBits(white, i) <= s
    ensures !(EOL <= s)
  {
    if EOL <= s {
      var b := CodeBits(white, i);
      CodeWindow(white, i);
      EolWindow();
      assert b <= s[..13] && EOL == s[..13];
      PrefixInterval(b, EOL, 13);
      assert false;
    }
  }
}

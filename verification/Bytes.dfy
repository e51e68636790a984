/** Fixed-width unsigned integers and their big-endian bytes. */
module Bytes {
  import Modular

  type Byte = x: int | 0 <= x < 0x100
  type U16 = x: int | 0 <= x < 0x1_0000
  type U32 = x: int | 0 <= x < 0x1_0000_0000
  type U64 = x: int | 0 <= x < 0x1_0000_0000_0000_0000

  function Be16(v: U16): (b: seq<Byte>)
    ensures |b| == 2
  {
    [v / 0x100, v % 0x100]
  }

  function Be32(v: U32): (b: seq<Byte>)
    ensures |b| == 4
  {
    [v / 0x100_0000, v / 0x1_0000 % 0x100, v / 0x100 % 0x100, v % 0x100]
  }

  function Get16(b: seq<Byte>, at: nat): (v: U16)
    requires at + 2 <= |b|
  {
    0x100 * (b[at] as int) + b[at + 1]
  }

  function Get32(b: seq<Byte>, at: nat): (v: U32)
    requires at + 4 <= |b|
  {
    0x100_0000 * (b[at] as int) + 0x1_0000 * (b[at + 1] as int) + 0x100 * (b[at + 2] as int) + b[at + 3]
  }

  /** Reading back what was written, wherever it stands. */
  lemma Read32(v: U32, before: seq<Byte>, after: seq<Byte>)
    ensures Get32(before + Be32(v) + after, |before|) == v
  {
    Digits32(v);
  }

  lemma Digits32(v: U32)
    ensures v == 0x100_0000 * (v / 0x100_0000) + 0x1_0000 * (v / 0x1_0000 % 0x100) + 0x100 * (v / 0x100 % 0x100)
            + v % 0x100
  {
    var h := v / 0x100;
    var m := h / 0x100;
    assert v == 0x100 * h + v % 0x100;
    assert h == 0x100 * m + h % 0x100;
    assert m == 0x100 * (m / 0x100) + m % 0x100;
    assert m == v / 0x1_0000;
    assert m / 0x100 == v / 0x100_0000;
  }

  /** Four bytes make one number and no other. */
  lemma Write32(b: seq<Byte>)
    requires |b| == 4
    ensures Be32(Get32(b, 0)) == b
  {
    var v := Get32(b, 0);
    var (b0: int, b1: int, b2: int, b3: int) := (b[0], b[1], b[2], b[3]);
    var h, m := 0x1_0000 * b0 + 0x100 * b1 + b2, 0x100 * b0 + b1;
    Modular.Unique(v, 0x100, h, b3);
    Modular.Unique(h, 0x100, m, b2);
    Modular.Unique(v, 0x1_0000, m, 0x100 * b2 + b3);
    Modular.Unique(m, 0x100, b0, b1);
    Modular.Unique(v, 0x100_0000, b0, 0x1_0000 * b1 + 0x100 * b2 + b3);
  }

  /** A number inside a part of a sequence. */
  lemma Inside16(before: seq<Byte>, mid: seq<Byte>, after: seq<Byte>, k: nat)
    requires k + 2 <= |mid|
    ensures Get16(before + mid + after, |before| + k) == Get16(mid, k)
  {
  }

  /** Two parts that stand next to each other. */
  lemma FirstOf<T>(b: seq<T>, at: nat, end: nat, first: seq<T>, rest: seq<T>)
    requires at <= end <= |b| && b[at..end] == first + rest
    ensures end == at + |first| + |rest| && b[at..at + |first|] == first && b[at + |first|..end] == rest
  {
    var whole := b[at..end];
    assert whole[..|first|] == first && whole[|first|..] == rest;
    assert b[at..at + |first|] == whole[..|first|] && b[at + |first|..end] == whole[|first|..];
  }

  lemma Snoc<T>(s: seq<T>)
    requires s != []
    ensures s[..|s| - 1] + [s[|s| - 1]] == s
  {
  }

  lemma Join<T>(s: seq<T>, a: nat, b: nat, c: nat)
    requires a <= b <= c <= |s|
    ensures s[a..b] + s[b..c] == s[a..c]
  {
  }

  /** `wrapping_sub` and `wrapping_add` on 16 bits. */
  function Sub16(a: int, b: int): (d: U16) { (a - b) % 0x1_0000 }

  function Add16(a: int, b: int): (s: U16) { (a + b) % 0x1_0000 }

  function Zeros(n: nat): (b: seq<Byte>)
    ensures |b| == n
  {
    seq(n, i => 0)
  }

  function Repeated<T>(x: T, n: nat): (s: seq<T>)
    ensures |s| == n
  {
    seq(n, i => x)
  }

  lemma Assoc3<T>(a: seq<T>, b: seq<T>, c: seq<T>)
    ensures (a + b) + c == a + (b + c)
  {
  }
}

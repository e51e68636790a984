/**
 Per-packet initialisation vectors and nonces of SRTP and SRTCP (src/srtp.rs, section 4.1.1 of RFC 3711, RFC 7714).
 */
module SrtpIv {
  import opened Bytes
  import opened SrtpIndex
  import Modular

  // ----- exclusive or

  function XorBits(a: nat, b: nat, n: nat): (r: nat)
    ensures r < Modular.Pow2(n)
  {
    if n == 0 then 0 else 2 * XorBits(a / 2, b / 2, n - 1) + (a + b) % 2
  }

  lemma LowBit(high: nat, a: nat, b: nat)
    ensures var r := 2 * high + (a + b) % 2; r / 2 == high && (r + b) % 2 == a % 2
  {
  }

  lemma {:induction false} XorBitsTwice(a: nat, b: nat, n: nat)
    requires a < Modular.Pow2(n)
    ensures XorBits(XorBits(a, b, n), b, n) == a
  {
    if n > 0 {
      var high := XorBits(a / 2, b / 2, n - 1);
      XorBitsTwice(a / 2, b / 2, n - 1);
      LowBit(high, a, b);
      XorStep(XorBits(a, b, n), b, n, high, a);
    }
  }

  lemma XorStep(r: nat, b: nat, n: nat, high: nat, a: nat)
    requires n > 0 && r / 2 == high && (r + b) % 2 == a % 2 && XorBits(high, b / 2, n - 1) == a / 2
    ensures XorBits(r, b, n) == a
  {
    assert XorBits(r, b, n) == 2 * (a / 2) + a % 2;
  }

  function Xor(a: Byte, b: Byte): (r: Byte)
  {
    assert Modular.Pow2(8) == 256 by { assert Modular.Pow2(4) == 16; }
    XorBits(a, b, 8)
  }

  lemma XorTwice(a: Byte, b: Byte)
    ensures Xor(Xor(a, b), b) == a
  {
    assert Modular.Pow2(8) == 256 by { assert Modular.Pow2(4) == 16; }
    XorBitsTwice(a, b, 8);
  }

  function XorAll(a: seq<Byte>, b: seq<Byte>): (r: seq<Byte>)
    requires |a| == |b|
    ensures |r| == |a|
  {
    seq(|a|, i requires 0 <= i < |a| => Xor(a[i], b[i]))
  }

  lemma XorCommutes(a: Byte, b: Byte)
    ensures Xor(a, b) == Xor(b, a)
  {
    XorBitsCommutes(a, b, 8);
  }

  lemma {:induction false} XorBitsCommutes(a: nat, b: nat, n: nat)
    ensures XorBits(a, b, n) == XorBits(b, a, n)
  {
    if n > 0 { XorBitsCommutes(a / 2, b / 2, n - 1); }
  }

  /** Different blocks stay different under one salt. */
  lemma XorAllInjective(salt: seq<Byte>, a: seq<Byte>, b: seq<Byte>)
    requires |salt| == |a| == |b| && XorAll(salt, a) == XorAll(salt, b)
    ensures a == b
  {
    forall i | 0 <= i < |a| ensures a[i] == b[i] {
      assert XorAll(salt, a)[i] == XorAll(salt, b)[i];
      XorCommutes(salt[i], a[i]);
      XorCommutes(salt[i], b[i]);
      XorTwice(a[i], salt[i]);
      XorTwice(b[i], salt[i]);
    }
  }

  // ----- what is masked with the salt

  function Be64(v: U64): (b: seq<Byte>)
    ensures |b| == 8
  {
    Be32(v / 0x1_0000_0000) + Be32(v % 0x1_0000_0000)
  }

  function IvBlock(ssrc: U32, i: Index): (b: seq<Byte>)
    ensures |b| == 16
  {
    Zeros(4) + Be32(ssrc) + Be64(i * 0x1_0000)
  }

  function NonceBlock(ssrc: U32, i: Index): (b: seq<Byte>)
    ensures |b| == 12
  {
    Zeros(2) + Be32(ssrc) + Be32(Roc(i)) + Be16(Sequence(i))
  }

  function RtcpIvBlock(ssrc: U32, index: U32): (b: seq<Byte>)
    ensures |b| == 16
  {
    Zeros(4) + Be32(ssrc) + Zeros(2) + Be32(index) + Zeros(2)
  }

  function RtcpNonceBlock(ssrc: U32, index: U32): (b: seq<Byte>)
    ensures |b| == 12
  {
    Zeros(2) + Be32(ssrc) + Zeros(2) + Be32(index)
  }

  function Iv(salt: seq<Byte>, ssrc: U32, i: Index): (b: seq<Byte>)
    requires |salt| >= 14
    ensures |b| == 16
  {
    XorAll(salt[..14] + Zeros(2), IvBlock(ssrc, i))
  }

  function Nonce(salt: seq<Byte>, ssrc: U32, i: Index): (b: seq<Byte>)
    requires |salt| >= 12
    ensures |b| == 12
  {
    XorAll(salt[..12], NonceBlock(ssrc, i))
  }

  function RtcpIv(salt: seq<Byte>, ssrc: U32, index: U32): (b: seq<Byte>)
    requires |salt| >= 14
    ensures |b| == 16
  {
    XorAll(salt[..14] + Zeros(2), RtcpIvBlock(ssrc, index))
  }

  function RtcpNonce(salt: seq<Byte>, ssrc: U32, index: U32): (b: seq<Byte>)
    requires |salt| >= 12
    ensures |b| == 12
  {
    XorAll(salt[..12], RtcpNonceBlock(ssrc, index))
  }

  /** The masking loop shared by all four builders, in place on the vector. */
  method Mask(iv: array<Byte>, block: seq<Byte>)
    requires iv.Length == |block|
    modifies iv
    ensures iv[..] == XorAll(old(iv[..]), block)
  {
    for k := 0 to |block|
      invariant forall j | 0 <= j < k :: iv[j] == Xor(old(iv[j]), block[j])
      invariant forall j | k <= j < iv.Length :: iv[j] == old(iv[j])
    {
      iv[k] := Xor(iv[k], block[k]);
    }
  }

  method BuildIv(salt: seq<Byte>, ssrc: U32, sequence: U16, roc: U32) returns (r: seq<Byte>)
    requires |salt| >= 14
    ensures r == Iv(salt, ssrc, IndexOf(roc, sequence))
  {
    var index: U64 := 0x1_0000 * roc + sequence;
    var part: U64 := index * 0x1_0000;
    var iv := new Byte[16](k requires 0 <= k < 16 => if k < 14 then salt[k] else 0);
    assert iv[..] == salt[..14] + Zeros(2);
    Mask(iv, Zeros(4) + Be32(ssrc) + Be64(part));
    r := iv[..];
  }

  method BuildNonce(salt: seq<Byte>, ssrc: U32, sequence: U16, roc: U32) returns (r: seq<Byte>)
    requires |salt| >= 12
    ensures r == Nonce(salt, ssrc, IndexOf(roc, sequence))
  {
    var iv := new Byte[12](k requires 0 <= k < 12 => salt[k]);
    assert iv[..] == salt[..12];
    Mask(iv, Zeros(2) + Be32(ssrc) + Be32(roc) + Be16(sequence));
    r := iv[..];
  }

  // ----- no two packets share a block

  lemma Be32Injective(a: U32, b: U32)
    requires Be32(a) == Be32(b)
    ensures a == b
  {
    Digits32(a);
    Digits32(b);
  }

  lemma Be64Injective(a: U64, b: U64)
    requires Be64(a) == Be64(b)
    ensures a == b
  {
    assert Be64(a)[..4] == Be32(a / 0x1_0000_0000) && Be64(b)[..4] == Be32(b / 0x1_0000_0000);
    assert Be64(a)[4..] == Be32(a % 0x1_0000_0000) && Be64(b)[4..] == Be32(b % 0x1_0000_0000);
    Be32Injective(a / 0x1_0000_0000, b / 0x1_0000_0000);
    Be32Injective(a % 0x1_0000_0000, b % 0x1_0000_0000);
  }

  lemma IvBlockInjective(ssrc: U32, i: Index, ssrc': U32, i': Index)
    requires IvBlock(ssrc, i) == IvBlock(ssrc', i')
    ensures ssrc == ssrc' && i == i'
  {
    assert IvBlock(ssrc, i)[4..8] == Be32(ssrc) && IvBlock(ssrc', i')[4..8] == Be32(ssrc');
    assert IvBlock(ssrc, i)[8..] == Be64(i * 0x1_0000) && IvBlock(ssrc', i')[8..] == Be64(i' * 0x1_0000);
    Be32Injective(ssrc, ssrc');
    Be64Injective(i * 0x1_0000, i' * 0x1_0000);
  }

  lemma IvBlockTail(ssrc: U32, i: Index)
    ensures IvBlock(ssrc, i)[14] == 0 && IvBlock(ssrc, i)[15] == 0
  {
    var (v, x) := (i * 0x1_0000, i % 0x1_0000);
    Modular.Unique(v, 0x1_0000_0000, i / 0x1_0000, 0x1_0000 * x);
    var low: U32 := v % 0x1_0000_0000;
    Modular.Unique(low, 0x100, 0x100 * x, 0);
    Modular.Unique(0x100 * x, 0x100, x, 0);
    assert IvBlock(ssrc, i)[14] == Be32(low)[2] && IvBlock(ssrc, i)[15] == Be32(low)[3];
  }

  lemma NonceBlockInjective(ssrc: U32, i: Index, ssrc': U32, i': Index)
    requires NonceBlock(ssrc, i) == NonceBlock(ssrc', i')
    ensures ssrc == ssrc' && i == i'
  {
    var (a, b) := (NonceBlock(ssrc, i), NonceBlock(ssrc', i'));
    assert a[2..6] == Be32(ssrc) && b[2..6] == Be32(ssrc');
    assert a[6..10] == Be32(Roc(i)) && b[6..10] == Be32(Roc(i'));
    assert a[10..] == Be16(Sequence(i)) && b[10..] == Be16(Sequence(i'));
    Be32Injective(ssrc, ssrc');
    Be32Injective(Roc(i), Roc(i'));
    assert Sequence(i) == Sequence(i') by {
      assert Be16(Sequence(i))[0] == Be16(Sequence(i'))[0] && Be16(Sequence(i))[1] == Be16(Sequence(i'))[1];
    }
  }

  /** GCM nonces of different packets differ, for any salt. */
  lemma NoncesDistinct(salt: seq<Byte>, ssrc: U32, i: Index, ssrc': U32, i': Index)
    requires |salt| >= 12 && (ssrc != ssrc' || i != i')
    ensures Nonce(salt, ssrc, i) != Nonce(salt, ssrc', i')
  {
    if Nonce(salt, ssrc, i) == Nonce(salt, ssrc', i') {
      XorAllInjective(salt[..12], NonceBlock(ssrc, i), NonceBlock(ssrc', i'));
      NonceBlockInjective(ssrc, i, ssrc', i');
    }
  }

  lemma RtcpNoncesDistinct(salt: seq<Byte>, ssrc: U32, i: U32, ssrc': U32, i': U32)
    requires |salt| >= 12 && (ssrc != ssrc' || i != i')
    ensures RtcpNonce(salt, ssrc, i) != RtcpNonce(salt, ssrc', i')
  {
    if RtcpNonce(salt, ssrc, i) == RtcpNonce(salt, ssrc', i') {
      var (a, b) := (RtcpNonceBlock(ssrc, i), RtcpNonceBlock(ssrc', i'));
      XorAllInjective(salt[..12], a, b);
      assert a[2..6] == Be32(ssrc) && b[2..6] == Be32(ssrc');
      assert a[8..] == Be32(i) && b[8..] == Be32(i');
      Be32Injective(ssrc, ssrc');
      Be32Injective(i, i');
    }
  }

  // ----- counter mode

  function Pow256(n: nat): (p: nat)
    ensures p > 0
  {
    if n == 0 then 1 else 256 * Pow256(n - 1)
  }

  /** The bytes as one big-endian number. */
  function Value(b: seq<Byte>): (v: nat)
    ensures v < Pow256(|b|)
  {
    if b == [] then 0 else 256 * Value(b[..|b| - 1]) + b[|b| - 1]
  }

  lemma LastDigit(v: nat, d: Byte)
    ensures (256 * v + d) % 256 == d && (256 * v + d) / 256 == v
  {
    Modular.Unique(256 * v + d, 256, v, d);
  }

  lemma {:induction false} ValueInjective(a: seq<Byte>, b: seq<Byte>)
    requires |a| == |b| && Value(a) == Value(b)
    ensures a == b
  {
    if a != [] {
      var n := |a| - 1;
      LastDigit(Value(a[..n]), a[n]);
      LastDigit(Value(b[..n]), b[n]);
      ValueInjective(a[..n], b[..n]);
      Snoc(a);
      Snoc(b);
    }
  }

  /** Block `k` of the keystream of one packet enciphers this counter, which wraps at 128 bits. */
  function Counter(iv: seq<Byte>, k: nat): (c: nat)
    requires |iv| == 16
  {
    (Value(iv) + k) % Pow256(|iv|)
  }

  /** The last two bytes of a vector are zero, so the first 2^16 counters never carry into the rest. */
  lemma CounterSplits(iv: seq<Byte>, k: nat)
    requires |iv| == 16 && iv[14] == 0 && iv[15] == 0 && k < 0x1_0000
    ensures Counter(iv, k) == 0x1_0000 * Value(iv[..14]) + k
  {
    ValueSplits(iv);
    NoWrap(Value(iv[..14]), Pow256(|iv| - 2), k, Value(iv) + k, Pow256(|iv|));
  }

  lemma ValueSplits(b: seq<Byte>)
    requires |b| >= 2 && b[|b| - 2] == 0 && b[|b| - 1] == 0
    ensures Value(b) == 0x1_0000 * Value(b[..|b| - 2]) && Pow256(|b|) == 0x1_0000 * Pow256(|b| - 2)
  {
    var n := |b|;
    assert b[..n - 1][..n - 2] == b[..n - 2];
    assert Value(b) == 256 * Value(b[..n - 1]) && Value(b[..n - 1]) == 256 * Value(b[..n - 2]);
  }

  lemma NoWrap(v: nat, p: nat, k: nat, x: nat, q: nat)
    requires v < p && k < 0x1_0000 && q == 0x1_0000 * p && x == 0x1_0000 * v + k
    ensures x % q == x
  {
    Modular.Unique(x, q, 0, x);
  }

  lemma SameBytes(x: seq<Byte>, y: seq<Byte>)
    requires |x| == |y| == 16 && x[..14] == y[..14] && x[14] == y[14] && x[15] == y[15]
    ensures x == y
  {
    forall i | 0 <= i < 14 ensures x[i] == y[i] { assert x[..14][i] == y[..14][i]; }
  }

  lemma IvTail(salt: seq<Byte>, block: seq<Byte>)
    requires |salt| == 14 && |block| == 16 && block[14] == 0 && block[15] == 0
    ensures XorAll(salt + Zeros(2), block)[14] == 0 && XorAll(salt + Zeros(2), block)[15] == 0
  {
    XorTwice(0, 0);
    assert Xor(0, 0) == 0 by { XorZero(8); }
  }

  lemma {:induction false} XorZero(n: nat)
    ensures XorBits(0, 0, n) == 0
  {
    if n > 0 { XorZero(n - 1); }
  }

  lemma BlocksDisjoint(salt: seq<Byte>, a: seq<Byte>, b: seq<Byte>, k: nat, k': nat)
    requires |salt| == 14 && |a| == |b| == 16 && a != b && a[14] == a[15] == b[14] == b[15] == 0
    requires k < 0x1_0000 && k' < 0x1_0000
    ensures Counter(XorAll(salt + Zeros(2), a), k) != Counter(XorAll(salt + Zeros(2), b), k')
  {
    var x, y := XorAll(salt + Zeros(2), a), XorAll(salt + Zeros(2), b);
    IvTail(salt, a);
    IvTail(salt, b);
    CounterSplits(x, k);
    CounterSplits(y, k');
    if Counter(x, k) == Counter(y, k') {
      ValueInjective(x[..14], y[..14]);
      SameBytes(x, y);
      XorAllInjective(salt + Zeros(2), a, b);
    }
  }

  /** The 2^16 counter blocks of one packet are disjoint from those of every other packet, for any salt. */
  lemma CounterBlocksDisjoint(salt: seq<Byte>, ssrc: U32, i: Index, ssrc': U32, i': Index, k: nat, k': nat)
    requires |salt| >= 14 && (ssrc != ssrc' || i != i') && k < 0x1_0000 && k' < 0x1_0000
    ensures Counter(Iv(salt, ssrc, i), k) != Counter(Iv(salt, ssrc', i'), k')
  {
    if IvBlock(ssrc, i) == IvBlock(ssrc', i') { IvBlockInjective(ssrc, i, ssrc', i'); }
    IvBlockTail(ssrc, i);
    IvBlockTail(ssrc', i');
    BlocksDisjoint(salt[..14], IvBlock(ssrc, i), IvBlock(ssrc', i'), k, k');
  }

  lemma RtcpCounterBlocksDisjoint(salt: seq<Byte>, ssrc: U32, i: U32, ssrc': U32, i': U32, k: nat, k': nat)
    requires |salt| >= 14 && (ssrc != ssrc' || i != i') && k < 0x1_0000 && k' < 0x1_0000
    ensures Counter(RtcpIv(salt, ssrc, i), k) != Counter(RtcpIv(salt, ssrc', i'), k')
  {
    var (a, b) := (RtcpIvBlock(ssrc, i), RtcpIvBlock(ssrc', i'));
    if a == b {
      assert a[4..8] == Be32(ssrc) && b[4..8] == Be32(ssrc');
      assert a[10..14] == Be32(i) && b[10..14] == Be32(i');
      Be32Injective(ssrc, ssrc');
      Be32Injective(i, i');
    }
    BlocksDisjoint(salt[..14], a, b, k, k');
  }
}

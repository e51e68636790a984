/** Division facts about counters that wrap. */
module Modular {

  lemma Unique(x: int, d: int, q: int, r: int)
    requires d > 0
    requires x == d * q + r && 0 <= r < d
    ensures x / d == q && x % d == r
  {
    var k := x / d - q;
    assert d * k == r - x % d by {
      assert d * (x / d - q) == d * (x / d) - d * q;
    }
    if k >= 1 {
      Monotone(d, 1, k);
      assert false;
    } else if k <= -1 {
      Monotone(d, k, -1);
      assert false;
    }
  }

  lemma Monotone(d: int, a: int, b: int)
    requires d >= 0 && a <= b
    ensures d * a <= d * b
  {
    assert d * (b - a) >= 0;
  }

  /** Adding whole turns does not change the position on the wheel. */
  lemma AddTurns(x: int, d: int, k: int)
    requires d > 0
    ensures (x + d * k) % d == x % d && (x + d * k) / d == x / d + k
  {
    assert x + d * k == d * (x / d + k) + x % d by {
      assert d * (x / d + k) == d * (x / d) + d * k;
    }
    Unique(x + d * k, d, x / d + k, x % d);
  }

  /** Reducing first by a multiple of `d` changes nothing. */
  lemma ModMod(x: int, m: int, d: int)
    requires m > 0 && d > 0 && m % d == 0
    ensures (x % m) % d == x % d
  {
    assert x == x % m + d * ((m / d) * (x / m)) by {
      assert m == d * (m / d);
      assert m * (x / m) == d * ((m / d) * (x / m)) by { Assoc(d, m / d, x / m); }
    }
    AddTurns(x % m, d, (m / d) * (x / m));
  }

  lemma Assoc(a: int, b: int, c: int)
    ensures (a * b) * c == a * (b * c)
  {
  }

  /** Two counters less than one turn apart sit at different positions. */
  lemma Distinct(i: int, j: int, d: int)
    requires d > 0 && i < j < i + d
    ensures i % d != j % d
  {
    if i % d == j % d {
      var k := j / d - i / d;
      assert d * k == j - i by {
        assert d * (j / d - i / d) == d * (j / d) - d * (i / d);
      }
      if k >= 1 { Monotone(d, 1, k); } else { Monotone(d, k, 0); }
      assert false;
    }
  }

  /** `wrapping_sub` recovers the true distance of two counters less than one turn apart. */
  lemma Distance(lo: int, hi: int, m: int)
    requires m > 0 && 0 <= hi - lo < m
    ensures (hi % m - lo % m) % m == hi - lo
  {
    var k := lo / m - hi / m;
    assert hi % m - lo % m == (hi - lo) + m * k by {
      assert m * (lo / m - hi / m) == m * (lo / m) - m * (hi / m);
    }
    AddTurns(hi - lo, m, k);
    Unique(hi - lo, m, 0, hi - lo);
  }

  /** `wrapping_add(1)` of a wrapped counter is the wrapped successor. */
  lemma Successor(x: int, m: int)
    requires m > 0
    ensures (x % m + 1) % m == (x + 1) % m
  {
    AddTurns(x % m + 1, m, x / m);
  }

  // ----- powers of two

  function Pow2(n: nat): (p: nat)
    ensures p > 0
  {
    if n == 0 then 1 else 2 * Pow2(n - 1)
  }

  lemma {:induction false} Pow2Sum(a: nat, b: nat)
    ensures Pow2(a + b) == Pow2(a) * Pow2(b)
  {
    if a > 0 {
      Pow2Sum(a - 1, b);
      Assoc(2, Pow2(a - 1), Pow2(b));
    }
  }

  // ----- counting

  lemma {:induction false} SubsetCount<T>(a: set<T>, b: set<T>)
    requires a <= b
    ensures |a| <= |b|
  {
    if a != {} {
      var x :| x in a;
      SubsetCount(a - {x}, b - {x});
    }
  }
}

/**
 Generic NACK lists: packing lost sequence numbers into (pid, bitmask) pairs and expanding them again (src/rtp.rs).
 */
module Nack {
  import opened Bytes
  import Modular

  datatype Pair = Pair(pid: U16, blp: U16)

  // ----- bit masks

  /** `(w >> b) & 1 == 1`. */
  predicate TestBit(w: nat, b: nat) { if b == 0 then w % 2 == 1 else TestBit(w / 2, b - 1) }

  /** `w | 1 << b`. */
  function SetBit(w: nat, b: nat): (r: nat)
  {
    if b == 0 then w - w % 2 + 1 else 2 * SetBit(w / 2, b - 1) + w % 2
  }

  lemma {:induction false} SetBitFits(w: nat, b: nat, n: nat)
    requires w < Modular.Pow2(n) && b < n
    ensures SetBit(w, b) < Modular.Pow2(n)
  {
    if b > 0 { SetBitFits(w / 2, b - 1, n - 1); }
  }

  lemma {:induction false} SetBitSets(w: nat, b: nat, c: nat)
    ensures TestBit(SetBit(w, b), c) <==> c == b || TestBit(w, c)
  {
    if b > 0 && c > 0 {
      SetBitSets(w / 2, b - 1, c - 1);
      assert SetBit(w, b) / 2 == SetBit(w / 2, b - 1);
    }
  }

  function SetBit16(w: U16, b: nat): (r: U16)
    requires b < 16
  {
    SixteenBits();
    SetBitFits(w, b, 16);
    SetBit(w, b)
  }

  lemma SixteenBits()
    ensures Modular.Pow2(16) == 0x1_0000
  {
    assert Modular.Pow2(8) == 0x100;
    assert Modular.Pow2(12) == 0x1000;
  }

  lemma {:induction false} ZeroBits(b: nat)
    ensures !TestBit(0, b)
  {
    if b > 0 { ZeroBits(b - 1); }
  }

  // ----- sorting

  predicate Increasing(s: seq<U16>) { forall i, j | 0 <= i < j < |s| :: s[i] < s[j] }

  function Insert(x: U16, s: seq<U16>): (r: seq<U16>)
  {
    if s == [] then [x] else if x < s[0] then [x] + s else if x == s[0] then s else [s[0]] + Insert(x, s[1..])
  }

  /** `sort_unstable` and `dedup`. */
  function Sorted(s: seq<U16>): (r: seq<U16>)
  {
    if s == [] then [] else Insert(s[0], Sorted(s[1..]))
  }

  /** Membership, one element at a time. */
  lemma ConsMember(x: U16, s: seq<U16>, y: U16)
    ensures y in [x] + s <==> y == x || y in s
  {
  }

  lemma {:induction false} InsertMember(x: U16, s: seq<U16>, y: U16)
    ensures y in Insert(x, s) <==> y == x || y in s
  {
    if s != [] {
      ConsMember(s[0], s[1..], y);
      assert [s[0]] + s[1..] == s;
      ConsMember(x, s, y);
      if x > s[0] {
        InsertMember(x, s[1..], y);
        ConsMember(s[0], Insert(x, s[1..]), y);
      }
    }
  }

  lemma IncreasingCons(x: U16, s: seq<U16>)
    requires Increasing(s) && forall i | 0 <= i < |s| :: x < s[i]
    ensures Increasing([x] + s)
  {
  }

  lemma {:induction false} InsertIncreasing(x: U16, s: seq<U16>)
    requires Increasing(s)
    ensures Increasing(Insert(x, s))
  {
    if s != [] {
      if x < s[0] {
        IncreasingCons(x, s);
      } else if x > s[0] {
        InsertIncreasing(x, s[1..]);
        var r := Insert(x, s[1..]);
        forall i | 0 <= i < |r| ensures s[0] < r[i] { InsertMember(x, s[1..], r[i]); }
        IncreasingCons(s[0], r);
      }
    }
  }

  lemma {:induction false} SortedMember(s: seq<U16>, y: U16)
    ensures y in Sorted(s) <==> y in s
  {
    if s != [] {
      SortedMember(s[1..], y);
      InsertMember(s[0], Sorted(s[1..]), y);
      ConsMember(s[0], s[1..], y);
      assert [s[0]] + s[1..] == s;
    }
  }

  lemma {:induction false} SortedIsIncreasing(s: seq<U16>)
    ensures Increasing(Sorted(s))
  {
    if s != [] {
      SortedIsIncreasing(s[1..]);
      InsertIncreasing(s[0], Sorted(s[1..]));
    }
  }

  lemma SortedIncreasing(s: seq<U16>)
    ensures Increasing(Sorted(s)) && forall y :: y in Sorted(s) <==> y in s
  {
    SortedIsIncreasing(s);
    forall y ensures y in Sorted(s) <==> y in s { SortedMember(s, y); }
  }

  // ----- expanding

  /** The packets the first `n` bits of a mask name. */
  function ExpandBits(pid: U16, blp: U16, n: nat): (s: seq<U16>)
  {
    if n == 0 then [] else ExpandBits(pid, blp, n - 1) + if TestBit(blp, n - 1) then [Add16(pid, n)] else []
  }

  function ExpandPair(p: Pair): (s: seq<U16>) { [p.pid] + ExpandBits(p.pid, p.blp, 16) }

  function Expand(pairs: seq<Pair>): (s: seq<U16>)
  {
    if pairs == [] then [] else Expand(pairs[..|pairs| - 1]) + ExpandPair(pairs[|pairs| - 1])
  }

  /** The inner loop of the parser, bit by bit. */
  method ExpandOne(p: Pair) returns (s: seq<U16>)
    ensures s == ExpandPair(p)
  {
    s := [p.pid];
    var bit: nat := 0;
    while bit < 16
      invariant bit <= 16 && s == [p.pid] + ExpandBits(p.pid, p.blp, bit)
    {
      if TestBit(p.blp, bit) {
        s := s + [Add16(p.pid, bit + 1)];
      }
      bit := bit + 1;
    }
  }

  method ExpandAll(pairs: seq<Pair>) returns (s: seq<U16>)
    ensures s == Expand(pairs)
  {
    s := [];
    for i := 0 to |pairs|
      invariant s == Expand(pairs[..i])
    {
      var one := ExpandOne(pairs[i]);
      assert pairs[..i + 1][..i] == pairs[..i];
      s := s + one;
    }
    assert pairs[..|pairs|] == pairs;
  }

  // ----- packing

  /** How many of the numbers at the front lie within 16 of `pid`. */
  function Reach(pid: U16, s: seq<U16>): (n: nat)
    ensures n <= |s| && (forall i | 0 <= i < n :: Sub16(s[i], pid) <= 16) && (n < |s| ==> Sub16(s[n], pid) > 16)
  {
    if s == [] || Sub16(s[0], pid) > 16 then 0 else 1 + Reach(pid, s[1..])
  }

  /** The mask of numbers within 16 of `pid`. */
  function Mask(pid: U16, near: seq<U16>): (w: U16)
    requires forall i | 0 <= i < |near| :: 1 <= Sub16(near[i], pid) <= 16
  {
    if near == [] then 0
    else var m := |near| - 1; SetBit16(Mask(pid, near[..m]), Sub16(near[m], pid) - 1)
  }

  lemma Near(s: seq<U16>)
    requires Increasing(s) && s != []
    ensures forall i | 0 < i < |s| :: Sub16(s[i], s[0]) == s[i] - s[0] > 0
  {
  }

  function Pack(s: seq<U16>): (pairs: seq<Pair>)
    requires Increasing(s)
  {
    if s == [] then []
    else
      var n := Reach(s[0], s[1..]);
      Near(s);
      [Pair(s[0], Mask(s[0], s[1..1 + n]))] + Pack(s[1 + n..])
  }

  /** The outer loop. The list has no repetitions, so the difference within a window is never zero. */
  method PackNackPairs(packets: seq<U16>) returns (pairs: seq<Pair>)
    ensures Increasing(Sorted(packets)) && pairs == Pack(Sorted(packets))
  {
    var seqs := Sorted(packets);
    SortedIncreasing(packets);
    pairs := [];
    var idx: nat := 0;
    while idx < |seqs|
      invariant idx <= |seqs| && pairs + Pack(seqs[idx..]) == Pack(seqs)
    {
      ghost var rest := seqs[idx..];
      var pair, next := PackOne(seqs, idx);
      assert rest[1 + (next - idx - 1)..] == seqs[next..];
      Assoc3(pairs, [pair], Pack(seqs[next..]));
      pairs := pairs + [pair];
      idx := next;
    }
    assert pairs + [] == pairs;
  }

  /** The first `n` numbers after the first lie within 16 of it. */
  predicate Reached(rest: seq<U16>, n: nat)
  {
    n < |rest| && forall i | 1 <= i <= n :: 1 <= Sub16(rest[i], rest[0]) <= 16
  }

  function MaskOf(rest: seq<U16>, n: nat): (w: U16)
    requires Reached(rest, n)
  {
    Mask(rest[0], rest[1..1 + n])
  }

  lemma ReachReached(rest: seq<U16>)
    requires Increasing(rest) && rest != []
    ensures var n := Reach(rest[0], rest[1..]);
            Reached(rest, n) && (1 + n < |rest| ==> Sub16(rest[1 + n], rest[0]) > 16)
  {
    var n := Reach(rest[0], rest[1..]);
    Near(rest);
    forall i | 1 <= i <= n ensures 1 <= Sub16(rest[i], rest[0]) <= 16 { assert rest[i] == rest[1..][i - 1]; }
  }

  lemma MaskNext(rest: seq<U16>, n: nat)
    requires Reached(rest, n + 1)
    ensures Reached(rest, n) && MaskOf(rest, n + 1) == SetBit16(MaskOf(rest, n), Sub16(rest[n + 1], rest[0]) - 1)
  {
    assert rest[1..1 + n] + [rest[n + 1]] == rest[1..2 + n];
    MaskMore(rest[0], rest[1..1 + n], rest[n + 1]);
  }

  /** One round of the outer loop: the pair that starts at `at`, and where the next one starts. */
  method PackOne(seqs: seq<U16>, at: nat) returns (pair: Pair, next: nat)
    requires Increasing(seqs) && at < |seqs|
    ensures at < next <= |seqs| && Increasing(seqs[at..])
    ensures Pack(seqs[at..]) == [pair] + Pack(seqs[at..][1 + (next - at - 1)..])
  {
    var pid := seqs[at];
    ghost var rest, n := seqs[at..], 0;
    ReachReached(rest);
    var idx: nat := at + 1;
    var blp: U16 := 0;
    while idx < |seqs|
      invariant idx == at + 1 + n <= |seqs| && n <= Reach(pid, rest[1..])
      invariant Reached(rest, n) && blp == MaskOf(rest, n)
    {
      var x := seqs[idx];
      assert x == rest[n + 1];
      var diff := Sub16(x, pid);
      if diff > 16 {
        break;
      }
      OneFurther(rest, n);
      blp := SetBit16(blp, diff - 1);
      idx, n := idx + 1, n + 1;
    }
    ReachEnds(rest, n);
    pair, next := Pair(pid, blp), idx;
  }

  lemma OneFurther(rest: seq<U16>, n: nat)
    requires Increasing(rest) && Reached(rest, n) && n <= Reach(rest[0], rest[1..]) && n + 1 < |rest|
             && Sub16(rest[n + 1], rest[0]) <= 16
    ensures n + 1 <= Reach(rest[0], rest[1..]) && Reached(rest, n + 1)
    ensures Sub16(rest[n + 1], rest[0]) >= 1
            && MaskOf(rest, n + 1) == SetBit16(MaskOf(rest, n), Sub16(rest[n + 1], rest[0]) - 1)
  {
    ReachReached(rest);
    MaskNext(rest, n);
  }

  lemma ReachEnds(rest: seq<U16>, n: nat)
    requires Increasing(rest) && Reached(rest, n) && n <= Reach(rest[0], rest[1..])
    requires n + 1 == |rest| || Sub16(rest[n + 1], rest[0]) > 16
    ensures n == Reach(rest[0], rest[1..]) && Pack(rest) == [Pair(rest[0], MaskOf(rest, n))] + Pack(rest[1 + n..])
  {
    ReachReached(rest);
  }

  lemma MaskMore(pid: U16, near: seq<U16>, x: U16)
    requires forall i | 0 <= i < |near| :: 1 <= Sub16(near[i], pid) <= 16
    requires 1 <= Sub16(x, pid) <= 16
    ensures Mask(pid, near + [x]) == SetBit16(Mask(pid, near), Sub16(x, pid) - 1)
  {
    assert (near + [x])[..|near|] == near;
  }

  // ----- exactness

  lemma {:induction false} MaskBits(pid: U16, near: seq<U16>, c: nat)
    requires forall i | 0 <= i < |near| :: 1 <= Sub16(near[i], pid) <= 16
    ensures TestBit(Mask(pid, near), c) <==> exists i :: 0 <= i < |near| && Sub16(near[i], pid) == c + 1
  {
    if near == [] {
      ZeroBits(c);
    } else {
      var m := |near| - 1;
      var before := near[..m];
      MaskBits(pid, before, c);
      SetBitSets(Mask(pid, before), Sub16(near[m], pid) - 1, c);
      if i :| 0 <= i < |near| && Sub16(near[i], pid) == c + 1 {
        assert i == m || before[i] == near[i];
      }
    }
  }

  /** The first `n` bits of the mask name these numbers. */
  ghost predicate Names(pid: U16, blp: U16, near: seq<U16>, n: nat)
  {
    && Increasing(near)
    && (forall i | 0 <= i < |near| :: pid < near[i] <= pid + n)
    && (forall c {:trigger TestBit(blp, c)} | 0 <= c < n ::
          TestBit(blp, c) <==> exists i :: 0 <= i < |near| && near[i] == pid + 1 + c)
  }

  lemma LastIsLargest(near: seq<U16>, i: nat)
    requires Increasing(near) && i < |near|
    ensures near[i] <= near[|near| - 1] && (near[i] == near[|near| - 1] ==> i == |near| - 1)
  {
  }

  lemma NamesLess(pid: U16, blp: U16, near: seq<U16>, n: nat)
    requires n > 0 && Names(pid, blp, near, n)
    ensures var m := |near| - 1;
            if TestBit(blp, n - 1) then near != [] && near[m] == Add16(pid, n) && Names(pid, blp, near[..m], n - 1)
            else Names(pid, blp, near, n - 1)
  {
    var m := |near| - 1;
    if TestBit(blp, n - 1) {
      var i :| 0 <= i < |near| && near[i] == pid + 1 + (n - 1);
      LastIsLargest(near, i);
      forall c {:trigger TestBit(blp, c)} | 0 <= c < n - 1
        ensures TestBit(blp, c) <==> exists i :: 0 <= i < m && near[..m][i] == pid + 1 + c
      {
        if i :| 0 <= i < |near| && near[i] == pid + 1 + c { assert near[..m][i] == near[i]; }
      }
    }
  }

  /** Bits and numbers correspond: the mask expands to the numbers it was made of. */
  lemma {:induction false} BitsOfWindow(pid: U16, blp: U16, near: seq<U16>, n: nat)
    requires Names(pid, blp, near, n)
    ensures ExpandBits(pid, blp, n) == near
  {
    if n == 0 {
      assert near == [];
    } else {
      var m := |near| - 1;
      NamesLess(pid, blp, near, n);
      if TestBit(blp, n - 1) {
        BitsOfWindow(pid, blp, near[..m], n - 1);
        Snoc(near);
      } else {
        BitsOfWindow(pid, blp, near, n - 1);
      }
    }
  }

  lemma MaskNames(pid: U16, near: seq<U16>)
    requires Increasing(near) && forall i | 0 <= i < |near| :: pid < near[i] && 1 <= Sub16(near[i], pid) <= 16
    ensures Names(pid, Mask(pid, near), near, 16)
  {
    forall i | 0 <= i < |near| ensures Sub16(near[i], pid) == near[i] - pid { }
    var blp := Mask(pid, near);
    forall c {:trigger TestBit(blp, c)} | 0 <= c < 16
      ensures TestBit(blp, c) <==> exists i :: 0 <= i < |near| && near[i] == pid + 1 + c
    {
      MaskBits(pid, near, c);
      if i :| 0 <= i < |near| && near[i] == pid + 1 + c { assert Sub16(near[i], pid) == c + 1; }
    }
  }

  lemma ExpandOfMask(pid: U16, near: seq<U16>)
    requires Increasing(near) && forall i | 0 <= i < |near| :: pid < near[i] && 1 <= Sub16(near[i], pid) <= 16
    ensures ExpandPair(Pair(pid, Mask(pid, near))) == [pid] + near
  {
    MaskNames(pid, near);
    BitsOfWindow(pid, Mask(pid, near), near, 16);
  }

  lemma ExpandSnoc(pairs: seq<Pair>, p: Pair)
    ensures Expand(pairs + [p]) == Expand(pairs) + ExpandPair(p)
  {
    assert (pairs + [p])[..|pairs|] == pairs;
  }

  lemma {:induction false} ExpandJoin(a: seq<Pair>, b: seq<Pair>)
    ensures Expand(a + b) == Expand(a) + Expand(b)
  {
    if b == [] {
      assert a + b == a && Expand(a) + [] == Expand(a);
    } else {
      var m := |b| - 1;
      var before := b[..m];
      ExpandJoin(a, before);
      Snoc(b);
      Assoc3(a, before, [b[m]]);
      ExpandSnoc(a + before, b[m]);
      ExpandSnoc(before, b[m]);
      Assoc3(Expand(a), Expand(before), ExpandPair(b[m]));
    }
  }

  lemma ExpandFirst(pair: Pair, rest: seq<Pair>)
    ensures Expand([pair] + rest) == ExpandPair(pair) + Expand(rest)
  {
    ExpandJoin([pair], rest);
    assert Expand([pair]) == ExpandPair(pair) by { assert [pair][..0] == []; }
  }

  lemma Windows(s: seq<U16>, n: nat)
    requires Increasing(s) && n < |s|
    ensures Increasing(s[1..1 + n]) && Increasing(s[1 + n..]) && [s[0]] + s[1..1 + n] + s[1 + n..] == s
  {
  }

  /** Expanding what was packed gives the numbers back, in order. */
  lemma WindowIsNear(s: seq<U16>, n: nat)
    requires Increasing(s) && s != [] && n == Reach(s[0], s[1..])
    ensures var near := s[1..1 + n]; forall i | 0 <= i < |near| :: s[0] < near[i] && 1 <= Sub16(near[i], s[0]) <= 16
  {
    var near := s[1..1 + n];
    Near(s);
    forall i | 0 <= i < |near| ensures s[0] < near[i] && 1 <= Sub16(near[i], s[0]) <= 16 {
      assert near[i] == s[1..][i] == s[1 + i];
    }
  }

  lemma {:induction false} ExpandInvertsPack(s: seq<U16>)
    requires Increasing(s)
    ensures Expand(Pack(s)) == s
  {
    if s != [] {
      var n := Reach(s[0], s[1..]);
      Near(s);
      Windows(s, n);
      var near, rest := s[1..1 + n], s[1 + n..];
      WindowIsNear(s, n);
      ExpandOfMask(s[0], near);
      ExpandInvertsPack(rest);
      ExpandFirst(Pair(s[0], Mask(s[0], near)), Pack(rest));
    }
  }

  /** The round trip of any list: its distinct numbers in increasing order. */
  lemma PackIsExact(packets: seq<U16>)
    ensures Increasing(Sorted(packets)) && Expand(Pack(Sorted(packets))) == Sorted(packets)
    ensures forall y :: y in Expand(Pack(Sorted(packets))) <==> y in packets
  {
    SortedIncreasing(packets);
    ExpandInvertsPack(Sorted(packets));
  }

  // ----- minimality

  /** No number the pair names lies past 65535. */
  predicate StaysBelow(p: Pair) { forall b | 0 <= b < 16 :: TestBit(p.blp, b) ==> p.pid + b + 1 <= 0xFFFF }

  lemma {:induction false} BitsReach(p: Pair, n: nat, x: U16)
    requires StaysBelow(p) && n <= 16 && x in ExpandBits(p.pid, p.blp, n)
    ensures p.pid < x <= p.pid + n
  {
    if x in ExpandBits(p.pid, p.blp, n - 1) {
      BitsReach(p, n - 1, x);
    } else {
      assert TestBit(p.blp, n - 1) && x == Add16(p.pid, n);
    }
  }

  /** What an expansion holds, some pair holds, and a pair that stays below 65535 spans 16. */
  lemma {:induction false} Covered(pairs: seq<Pair>, x: U16) returns (j: nat)
    requires (forall j | 0 <= j < |pairs| :: StaysBelow(pairs[j])) && x in Expand(pairs)
    ensures j < |pairs| && pairs[j].pid <= x <= pairs[j].pid + 16
  {
    var m := |pairs| - 1;
    if x in Expand(pairs[..m]) {
      j := Covered(pairs[..m], x);
    } else {
      j := m;
      if x != pairs[m].pid { BitsReach(pairs[m], 16, x); }
    }
  }

  /** Pids more than 16 apart, all of them in `s`. */
  predicate Apart(pairs: seq<Pair>, s: seq<U16>)
  {
    && (forall i | 0 <= i < |pairs| :: pairs[i].pid in s)
    && (forall i, j | 0 <= i < j < |pairs| :: pairs[i].pid + 16 < pairs[j].pid)
  }

  lemma ApartCons(p: Pair, rest: seq<Pair>, few: seq<U16>, s: seq<U16>)
    requires Apart(rest, few) && p.pid in s && forall x | x in few :: x in s && p.pid + 16 < x
    ensures Apart([p] + rest, s)
  {
  }

  /** The pids of a packed list are more than 16 apart. */
  lemma {:induction false} PidsApart(s: seq<U16>)
    requires Increasing(s)
    ensures Apart(Pack(s), s)
  {
    if s != [] {
      var n := Reach(s[0], s[1..]);
      Near(s);
      Windows(s, n);
      var rest := s[1 + n..];
      PidsApart(rest);
      forall x | x in rest ensures x in s && s[0] + 16 < x { FarAway(s, n, x); }
      ApartCons(Pair(s[0], Mask(s[0], s[1..1 + n])), Pack(rest), rest, s);
    }
  }

  lemma FarAway(s: seq<U16>, n: nat, x: U16)
    requires Increasing(s) && s != [] && n == Reach(s[0], s[1..]) && x in s[1 + n..]
    ensures x in s && s[0] + 16 < x
  {
    var i :| 0 <= i < |s[1 + n..]| && s[1 + n..][i] == x;
    assert s[1 + n] == s[1..][n] && s[1 + n + i] == x;
    Near(s);
  }

  /** Distinct numbers below `n` are at most `n` many. */
  lemma {:induction false} Pigeonhole(f: seq<nat>, n: nat)
    requires (forall i | 0 <= i < |f| :: f[i] < n) && forall i, j | 0 <= i < j < |f| :: f[i] != f[j]
    ensures |f| <= n
  {
    if f != [] {
      var used := set i | 0 <= i < |f| :: f[i];
      UsedCount(f);
      Modular.SubsetCount(used, Below(n));
    }
  }

  lemma {:induction false} UsedCount(f: seq<nat>)
    requires forall i, j | 0 <= i < j < |f| :: f[i] != f[j]
    ensures |set i | 0 <= i < |f| :: f[i]| == |f|
  {
    if f != [] {
      var m := |f| - 1;
      UsedCount(f[..m]);
      assert (set i | 0 <= i < |f| :: f[i]) == (set i | 0 <= i < m :: f[..m][i]) + {f[m]};
    }
  }

  function Below(n: nat): (r: set<nat>)
    ensures |r| == n && forall x: nat :: x in r <==> x < n
  {
    if n == 0 then {} else Below(n - 1) + {n - 1}
  }

  /** For each pid of the packed list, a pair of the other list that covers it. */
  lemma {:induction false} Choose(pids: seq<Pair>, other: seq<Pair>) returns (f: seq<nat>)
    requires forall j | 0 <= j < |other| :: StaysBelow(other[j])
    requires forall i | 0 <= i < |pids| :: pids[i].pid in Expand(other)
    ensures |f| == |pids|
    ensures forall i | 0 <= i < |f| :: f[i] < |other| && other[f[i]].pid <= pids[i].pid <= other[f[i]].pid + 16
  {
    f := [];
    if pids != [] {
      var m := |pids| - 1;
      var before := Choose(pids[..m], other);
      var j := Covered(other, pids[m].pid);
      f := before + [j];
    }
  }

  /** No list of pairs whose windows stay below 65536 names the same packets with fewer pairs. */
  lemma PackIsMinimal(packets: seq<U16>, other: seq<Pair>)
    requires forall j | 0 <= j < |other| :: StaysBelow(other[j])
    requires forall y :: y in Expand(other) <==> y in packets
    ensures Increasing(Sorted(packets)) && |Pack(Sorted(packets))| <= |other|
  {
    SortedIncreasing(packets);
    var s := Sorted(packets);
    var pairs := Pack(s);
    PidsApart(s);
    forall i | 0 <= i < |pairs| ensures pairs[i].pid in Expand(other) { assert pairs[i].pid in s; }
    var f := Choose(pairs, other);
    Pigeonhole(f, |other|);
  }

  /** A window that wraps past 65535 can do with fewer pairs. */
  lemma WrappedWindowIsShorter()
    ensures var other := [Pair(0xFFFF, 1)];
            !StaysBelow(other[0]) && Expand(other) == [0xFFFF, 0]
    ensures Increasing(Sorted([0, 0xFFFF])) && |Pack(Sorted([0, 0xFFFF]))| == 2
  {
    WrappedWindow(Pair(0xFFFF, 1));
    TwoPairs();
  }

  lemma WrappedWindow(p: Pair)
    requires p == Pair(0xFFFF, 1)
    ensures !StaysBelow(p) && Expand([p]) == [0xFFFF, 0]
  {
    assert TestBit(1, 0);
    OneBit(16);
    ExpandFirst(p, []);
    assert [p] + [] == [p] && ExpandPair(p) + [] == ExpandPair(p);
  }

  lemma TwoPairs()
    ensures Increasing(Sorted([0, 0xFFFF])) && |Pack(Sorted([0, 0xFFFF]))| == 2
  {
    SortIdentity([0, 0xFFFF]);
    FarApart(0, 0xFFFF);
  }

  /** Sorting leaves an increasing list alone. */
  lemma {:induction false} SortIdentity(s: seq<U16>)
    requires Increasing(s)
    ensures Sorted(s) == s
  {
    if s != [] {
      SortIdentity(s[1..]);
      assert [s[0]] + s[1..] == s;
    }
  }

  /** Two numbers more than 16 apart take two pairs. */
  lemma FarApart(a: U16, b: U16)
    requires a + 16 < b
    ensures |Pack([a, b])| == 2
  {
    var s := [a, b];
    assert s[1..] == [b] && Sub16(b, a) == b - a;
    assert Reach(a, [b]) == 0;
    assert [b][1..] == [] && Pack([]) == [];
    assert |Pack([b])| == 1;
  }

  lemma {:induction false} OneBit(n: nat)
    requires n >= 1
    ensures ExpandBits(0xFFFF, 1, n) == [0]
  {
    if n == 1 {
      assert ExpandBits(0xFFFF, 1, 0) == [];
    } else {
      OneBit(n - 1);
      ZeroBits(n - 2);
    }
  }
}

/**
 * Canonical simplex identity (src/Data.h, lines 22-314).
 *
 * An edge, triangle or tetrahedron is a tuple of 2, 3 or 4 unsigned vertex
 * indices. Hashing, ordering and equality "as a simplex" first run a fixed
 * compare-swap sorting network over the tuple and then work on the sorted
 * components, so that the order in which a file listed the vertices does not
 * matter. Plain `operator==` compares the tuples component by component.
 */
module Simplex {
  import opened Utilities

  /** C++ `unsigned int`: 32 bits. */
  newtype uint = x: int | 0 <= x < 0x1_0000_0000

  datatype Connect2 = Connect2(n0: uint, n1: uint) {
    function Items(): seq<uint> { [n0, n1] }
  }

  datatype Connect3 = Connect3(n0: uint, n1: uint, n2: uint) {
    function Items(): seq<uint> { [n0, n1, n2] }
  }

  datatype Connect4 = Connect4(n0: uint, n1: uint, n2: uint, n3: uint) {
    function Items(): seq<uint> { [n0, n1, n2, n3] }
  }

  // ---------------------------------------------------------------------------
  // Sorted sequences and the lexicographic order on them
  // ---------------------------------------------------------------------------

  predicate Sorted(s: seq<uint>) {
    forall i, j :: 0 <= i < j < |s| ==> s[i] <= s[j]
  }

  /** `a` comes before `b`: they agree up to some position, where `a` is smaller. */
  predicate LexLess(a: seq<uint>, b: seq<uint>) {
    exists k :: 0 <= k < |a| && k < |b| && a[..k] == b[..k] && a[k] < b[k]
  }

  /** The head of a sorted sequence is its least element. */
  lemma SortedHeadIsLeast(s: seq<uint>, x: uint)
    requires Sorted(s) && x in multiset(s)
    ensures s[0] <= x
  {
    var i :| 0 <= i < |s| && s[i] == x;
  }

  lemma SortedTail(s: seq<uint>)
    requires Sorted(s) && |s| > 0
    ensures Sorted(s[1..])
  {
  }

  lemma MultisetOfTail(s: seq<uint>)
    requires |s| > 0
    ensures multiset(s[1..]) == multiset(s) - multiset{s[0]}
  {
    assert s == [s[0]] + s[1..];
  }

  /** A sorted arrangement of a multiset is unique. */
  lemma {:induction false} SortedUnique(a: seq<uint>, b: seq<uint>)
    requires Sorted(a) && Sorted(b)
    requires multiset(a) == multiset(b)
    ensures a == b
    decreases |a|
  {
    if |a| == 0 {
      assert |b| == |multiset(b)| == 0;
    } else {
      assert |b| > 0 by { assert a[0] in multiset(b); }
      SortedHeadIsLeast(a, b[0]);
      SortedHeadIsLeast(b, a[0]);
      MultisetOfTail(a);
      MultisetOfTail(b);
      SortedTail(a);
      SortedTail(b);
      SortedUnique(a[1..], b[1..]);
      assert a[1..] == b[1..];
      assert a[0] == b[0];
      assert a == [a[0]] + a[1..];
      assert b == [b[0]] + b[1..];
    }
  }

  lemma LexLessIrreflexive(a: seq<uint>)
    ensures !LexLess(a, a)
  {
  }

  lemma LexLessTransitive(a: seq<uint>, b: seq<uint>, c: seq<uint>)
    requires LexLess(a, b) && LexLess(b, c)
    ensures LexLess(a, c)
  {
    var k1 :| 0 <= k1 < |a| && k1 < |b| && a[..k1] == b[..k1] && a[k1] < b[k1];
    var k2 :| 0 <= k2 < |b| && k2 < |c| && b[..k2] == c[..k2] && b[k2] < c[k2];
    if k1 < k2 {
      assert b[..k1] == c[..k1] by { assert b[..k1] == b[..k2][..k1]; assert c[..k1] == c[..k2][..k1]; }
      assert b[k1] == c[k1] by { assert b[k1] == b[..k2][k1]; assert c[k1] == c[..k2][k1]; }
      assert 0 <= k1 < |a| && k1 < |c| && a[..k1] == c[..k1] && a[k1] < c[k1];
    } else if k2 < k1 {
      assert a[..k2] == b[..k2] by { assert a[..k2] == a[..k1][..k2]; assert b[..k2] == b[..k1][..k2]; }
      assert a[k2] == b[k2] by { assert a[k2] == a[..k1][k2]; assert b[k2] == b[..k1][k2]; }
      assert 0 <= k2 < |a| && k2 < |c| && a[..k2] == c[..k2] && a[k2] < c[k2];
    } else {
      assert 0 <= k1 < |a| && k1 < |c| && a[..k1] == c[..k1] && a[k1] < c[k1];
    }
  }

  lemma LexLessAsymmetric(a: seq<uint>, b: seq<uint>)
    requires LexLess(a, b)
    ensures !LexLess(b, a)
  {
    if LexLess(b, a) {
      LexLessTransitive(a, b, a);
      LexLessIrreflexive(a);
    }
  }

  /** Two different sequences of the same length are ordered one way or the other. */
  lemma {:induction false} LexLessTotal(a: seq<uint>, b: seq<uint>)
    requires |a| == |b| && a != b
    ensures LexLess(a, b) || LexLess(b, a)
    decreases |a|
  {
    if a[0] != b[0] {
      assert a[..0] == b[..0];
      if a[0] < b[0] {
        assert 0 < |a| && a[..0] == b[..0] && a[0] < b[0];
      } else {
        assert 0 < |b| && b[..0] == a[..0] && b[0] < a[0];
      }
    } else {
      assert a == [a[0]] + a[1..] && b == [b[0]] + b[1..];
      LexLessTotal(a[1..], b[1..]);
      if LexLess(a[1..], b[1..]) {
        var k :| 0 <= k < |a[1..]| && k < |b[1..]| && a[1..][..k] == b[1..][..k] && a[1..][k] < b[1..][k];
        assert a[..k + 1] == [a[0]] + a[1..][..k];
        assert b[..k + 1] == [b[0]] + b[1..][..k];
        assert a[k + 1] < b[k + 1];
      } else {
        var k :| 0 <= k < |b[1..]| && k < |a[1..]| && b[1..][..k] == a[1..][..k] && b[1..][k] < a[1..][k];
        assert a[..k + 1] == [a[0]] + a[1..][..k];
        assert b[..k + 1] == [b[0]] + b[1..][..k];
        assert b[k + 1] < a[k + 1];
      }
    }
  }

  // ---------------------------------------------------------------------------
  // compare_swap (Data.h:22-28)
  // ---------------------------------------------------------------------------

  /** Exchanges the two values when the first is larger. */
  function CompareSwap(a: uint, b: uint): (r: (uint, uint))
    ensures r.0 <= r.1
    // the pair is a permutation of the original values
    ensures r == (a, b) || r == (b, a)
    // already ordered pairs are left alone
    ensures a <= b ==> r == (a, b)
  {
    if a > b then (b, a) else (a, b)
  }

  // ---------------------------------------------------------------------------
  // The three sorting networks
  // ---------------------------------------------------------------------------

  /** Network for two values: the single comparator (0,1) of Data.h:54. */
  function Canonical2(c: Connect2): (r: Connect2)
    ensures Sorted(r.Items())
    ensures multiset(r.Items()) == multiset(c.Items())
    ensures Sorted(c.Items()) ==> r == c
  {
    var (a, b) := CompareSwap(c.n0, c.n1);
    Connect2(a, b)
  }

  /** Network for three values: comparators (0,1), (0,2), (1,2) of Data.h:126-128. */
  function Canonical3(c: Connect3): (r: Connect3)
    ensures Sorted(r.Items())
    ensures multiset(r.Items()) == multiset(c.Items())
    ensures Sorted(c.Items()) ==> r == c
  {
    var (x0, x1) := CompareSwap(c.n0, c.n1);
    var (y0, x2) := CompareSwap(x0, c.n2);
    var (y1, y2) := CompareSwap(x1, x2);
    var r := Connect3(y0, y1, y2);
    assert Sorted(r.Items()) by {
      NetworkSorts3(c.n2, x0, x1, x2, y0, y1, y2);
      SortedLiteral3(y0, y1, y2);
    }
    assert multiset(r.Items()) == multiset(c.Items()) by {
      NetworkPermutes3(c.n0, c.n1, c.n2, x0, x1, x2, y0, y1, y2);
    }
    assert Sorted(c.Items()) ==> r == c by {
      SortedLiteral3(c.n0, c.n1, c.n2);
    }
    r
  }

  /** Network for four values: comparators (0,2), (1,3), (0,1), (2,3), (1,2) of Data.h:225-229. */
  function Canonical4(c: Connect4): (r: Connect4)
    ensures Sorted(r.Items())
    ensures multiset(r.Items()) == multiset(c.Items())
    ensures Sorted(c.Items()) ==> r == c
  {
    var (x0, x2) := CompareSwap(c.n0, c.n2);
    var (x1, x3) := CompareSwap(c.n1, c.n3);
    var (y0, y1) := CompareSwap(x0, x1);
    var (y2, y3) := CompareSwap(x2, x3);
    var (z1, z2) := CompareSwap(y1, y2);
    var r := Connect4(y0, z1, z2, y3);
    assert r.Items() == [y0, z1, z2, y3];
    assert c.Items() == [c.n0, c.n1, c.n2, c.n3];
    NetworkSorts4(x0, x1, x2, x3, y0, y1, y2, y3, z1, z2);
    SortedLiteral4(y0, z1, z2, y3);
    NetworkPermutes4(c.n0, c.n1, c.n2, c.n3, x0, x1, x2, x3, y0, y1, y2, y3, z1, z2);
    SortedLiteral4(c.n0, c.n1, c.n2, c.n3);
    r
  }

  lemma PairPermutes(a: uint, b: uint, c: uint, d: uint)
    requires (c, d) == (a, b) || (c, d) == (b, a)
    ensures multiset{c, d} == multiset{a, b}
  {
  }

  /** The three-value network leaves its outputs in order. */
  lemma NetworkSorts3(n2: uint, x0: uint, x1: uint, x2: uint, y0: uint, y1: uint, y2: uint)
    requires x0 <= x1
    requires y0 <= x2 && ((y0, x2) == (x0, n2) || (y0, x2) == (n2, x0))
    requires y1 <= y2 && ((y1, y2) == (x1, x2) || (y1, y2) == (x2, x1))
    ensures y0 <= y1 <= y2
  {
  }

  /** The four-value network leaves its outputs in order. */
  lemma NetworkSorts4(x0: uint, x1: uint, x2: uint, x3: uint,
                      y0: uint, y1: uint, y2: uint, y3: uint, z1: uint, z2: uint)
    requires x0 <= x2 && x1 <= x3
    requires y0 <= y1 && ((y0, y1) == (x0, x1) || (y0, y1) == (x1, x0))
    requires y2 <= y3 && ((y2, y3) == (x2, x3) || (y2, y3) == (x3, x2))
    requires z1 <= z2 && ((z1, z2) == (y1, y2) || (z1, z2) == (y2, y1))
    ensures y0 <= z1 <= z2 <= y3
  {
  }

  /** Splitting off the first of three values. */
  lemma SplitA(a: uint, b: uint, c: uint)
    ensures multiset([a, b, c]) == multiset{a} + multiset{b, c}
  {
  }

  /** Splitting off the middle of three values. */
  lemma SplitB(a: uint, b: uint, c: uint)
    ensures multiset([a, b, c]) == multiset{b} + multiset{a, c}
  {
  }

  /** Splitting off the last of three values. */
  lemma SplitC(a: uint, b: uint, c: uint)
    ensures multiset([a, b, c]) == multiset{a, b} + multiset{c}
  {
  }

  /** Splitting a multiset of four values into its first and last pair. */
  lemma PairsAB(a: uint, b: uint, c: uint, d: uint)
    ensures multiset([a, b, c, d]) == multiset{a, b} + multiset{c, d}
  {
  }

  /** Splitting a multiset of four values into its even and odd positions. */
  lemma PairsAC(a: uint, b: uint, c: uint, d: uint)
    ensures multiset([a, b, c, d]) == multiset{a, c} + multiset{b, d}
  {
  }

  /** Splitting a multiset of four values into its outer and inner pair. */
  lemma PairsAD(a: uint, b: uint, c: uint, d: uint)
    ensures multiset([a, b, c, d]) == multiset{a, d} + multiset{b, c}
  {
  }

  /** Composing the comparators of the three-value network keeps the multiset of values. */
  lemma NetworkPermutes3(n0: uint, n1: uint, n2: uint, x0: uint, x1: uint, x2: uint,
                         y0: uint, y1: uint, y2: uint)
    requires (x0, x1) == (n0, n1) || (x0, x1) == (n1, n0)
    requires (y0, x2) == (x0, n2) || (y0, x2) == (n2, x0)
    requires (y1, y2) == (x1, x2) || (y1, y2) == (x2, x1)
    ensures multiset([y0, y1, y2]) == multiset([n0, n1, n2])
  {
    PairPermutes(n0, n1, x0, x1);
    PairPermutes(x0, n2, y0, x2);
    PairPermutes(x1, x2, y1, y2);
    calc {
      multiset([y0, y1, y2]);
      { SplitA(y0, y1, y2); }
      multiset{y0} + multiset{y1, y2};
      multiset{y0} + multiset{x1, x2};
      { SplitA(y0, x1, x2); SplitB(y0, x1, x2); }
      multiset{x1} + multiset{y0, x2};
      multiset{x1} + multiset{x0, n2};
      { SplitB(x0, x1, n2); SplitC(x0, x1, n2); }
      multiset{x0, x1} + multiset{n2};
      multiset{n0, n1} + multiset{n2};
      { SplitC(n0, n1, n2); }
      multiset([n0, n1, n2]);
    }
  }

  /** Composing the comparators of the four-value network keeps the multiset of values. */
  lemma NetworkPermutes4(n0: uint, n1: uint, n2: uint, n3: uint,
                         x0: uint, x1: uint, x2: uint, x3: uint,
                         y0: uint, y1: uint, y2: uint, y3: uint, z1: uint, z2: uint)
    requires (x0, x2) == (n0, n2) || (x0, x2) == (n2, n0)
    requires (x1, x3) == (n1, n3) || (x1, x3) == (n3, n1)
    requires (y0, y1) == (x0, x1) || (y0, y1) == (x1, x0)
    requires (y2, y3) == (x2, x3) || (y2, y3) == (x3, x2)
    requires (z1, z2) == (y1, y2) || (z1, z2) == (y2, y1)
    ensures multiset([y0, z1, z2, y3]) == multiset([n0, n1, n2, n3])
  {
    PairPermutes(n0, n2, x0, x2);
    PairPermutes(n1, n3, x1, x3);
    PairPermutes(x0, x1, y0, y1);
    PairPermutes(x2, x3, y2, y3);
    PairPermutes(y1, y2, z1, z2);
    calc {
      multiset([y0, z1, z2, y3]);
      { PairsAD(y0, z1, z2, y3); }
      multiset{y0, y3} + multiset{z1, z2};
      multiset{y0, y3} + multiset{y1, y2};
      { PairsAD(y0, y1, y2, y3); PairsAB(y0, y1, y2, y3); }
      multiset{y0, y1} + multiset{y2, y3};
      multiset{x0, x1} + multiset{x2, x3};
      { PairsAB(x0, x1, x2, x3); PairsAC(x0, x1, x2, x3); }
      multiset{x0, x2} + multiset{x1, x3};
      multiset{n0, n2} + multiset{n1, n3};
      { PairsAC(n0, n1, n2, n3); }
      multiset([n0, n1, n2, n3]);
    }
  }

  lemma SortedLiteral3(a: uint, b: uint, c: uint)
    ensures Sorted([a, b, c]) <==> a <= b <= c
  {
    if a <= b <= c {
      forall i, j | 0 <= i < j < 3 ensures [a, b, c][i] <= [a, b, c][j] {
      }
    } else {
      assert !([a, b, c][0] <= [a, b, c][1] && [a, b, c][1] <= [a, b, c][2]);
    }
  }

  lemma SortedLiteral4(a: uint, b: uint, c: uint, d: uint)
    ensures Sorted([a, b, c, d]) <==> a <= b <= c <= d
  {
    var s := [a, b, c, d];
    if a <= b <= c <= d {
      forall i, j | 0 <= i < j < 4 ensures s[i] <= s[j] {
      }
    } else {
      assert !(s[0] <= s[1] && s[1] <= s[2] && s[2] <= s[3]);
    }
  }
  /** Two tuples have the same canonical form exactly when they hold the same indices. */
  lemma SameCanonical2(l: Connect2, r: Connect2)
    ensures Canonical2(l) == Canonical2(r) <==> multiset(l.Items()) == multiset(r.Items())
  {
    if multiset(l.Items()) == multiset(r.Items()) {
      SortedUnique(Canonical2(l).Items(), Canonical2(r).Items());
    }
  }

  lemma SameCanonical3(l: Connect3, r: Connect3)
    ensures Canonical3(l) == Canonical3(r) <==> multiset(l.Items()) == multiset(r.Items())
  {
    if multiset(l.Items()) == multiset(r.Items()) {
      SortedUnique(Canonical3(l).Items(), Canonical3(r).Items());
    }
  }

  lemma SameCanonical4(l: Connect4, r: Connect4)
    ensures Canonical4(l) == Canonical4(r) <==> multiset(l.Items()) == multiset(r.Items())
  {
    if multiset(l.Items()) == multiset(r.Items()) {
      SortedUnique(Canonical4(l).Items(), Canonical4(r).Items());
    }
  }

  // ---------------------------------------------------------------------------
  // CanonicalSimplexEquality (Data.h:88-101, 178-196, 293-314)
  // ---------------------------------------------------------------------------

  /** Equal as edges: the same two indices, repeats counted. */
  predicate CanonicalEqual2(l: Connect2, r: Connect2)
    ensures CanonicalEqual2(l, r) <==> multiset(l.Items()) == multiset(r.Items())
  {
    SameCanonical2(l, r);
    var a := Canonical2(l);
    var b := Canonical2(r);
    a.n0 == b.n0 && a.n1 == b.n1
  }

  /** Equal as triangles: the same three indices, repeats counted. */
  predicate CanonicalEqual3(l: Connect3, r: Connect3)
    ensures CanonicalEqual3(l, r) <==> multiset(l.Items()) == multiset(r.Items())
  {
    SameCanonical3(l, r);
    var a := Canonical3(l);
    var b := Canonical3(r);
    a.n0 == b.n0 && a.n1 == b.n1 && a.n2 == b.n2
  }

  /** Equal as tetrahedra: the same four indices, repeats counted. */
  predicate CanonicalEqual4(l: Connect4, r: Connect4)
    ensures CanonicalEqual4(l, r) <==> multiset(l.Items()) == multiset(r.Items())
  {
    SameCanonical4(l, r);
    var a := Canonical4(l);
    var b := Canonical4(r);
    a.n0 == b.n0 && a.n1 == b.n1 && a.n2 == b.n2 && a.n3 == b.n3
  }

  // ---------------------------------------------------------------------------
  // CanonicalSimplexOrder (Data.h:63-86, 138-176, 240-292)
  // ---------------------------------------------------------------------------

  /** Compares the sorted components, first differing one deciding. */
  predicate CanonicalLess2(l: Connect2, r: Connect2)
    ensures CanonicalLess2(l, r) <==> LexLess(Canonical2(l).Items(), Canonical2(r).Items())
  {
    var a := Canonical2(l);
    var b := Canonical2(r);
    LexLessLiteral2(a.n0, a.n1, b.n0, b.n1);
    if a.n0 < b.n0 then true
    else if b.n0 < a.n0 then false
    else a.n1 < b.n1
  }

  predicate CanonicalLess3(l: Connect3, r: Connect3)
    ensures CanonicalLess3(l, r) <==> LexLess(Canonical3(l).Items(), Canonical3(r).Items())
  {
    var a := Canonical3(l);
    var b := Canonical3(r);
    LexLessLiteral3(a.n0, a.n1, a.n2, b.n0, b.n1, b.n2);
    if a.n0 < b.n0 then true
    else if b.n0 < a.n0 then false
    else if a.n1 < b.n1 then true
    else if b.n1 < a.n1 then false
    else a.n2 < b.n2
  }

  predicate CanonicalLess4(l: Connect4, r: Connect4)
    ensures CanonicalLess4(l, r) <==> LexLess(Canonical4(l).Items(), Canonical4(r).Items())
  {
    var a := Canonical4(l);
    var b := Canonical4(r);
    LexLessLiteral4(a.n0, a.n1, a.n2, a.n3, b.n0, b.n1, b.n2, b.n3);
    if a.n0 < b.n0 then true
    else if b.n0 < a.n0 then false
    else if a.n1 < b.n1 then true
    else if b.n1 < a.n1 then false
    else if a.n2 < b.n2 then true
    else if b.n2 < a.n2 then false
    else a.n3 < b.n3
  }

  /** The lexicographic order on pairs, written out. */
  lemma LexLessLiteral2(a0: uint, a1: uint, b0: uint, b1: uint)
    ensures LexLess([a0, a1], [b0, b1]) <==> a0 < b0 || (a0 == b0 && a1 < b1)
  {
    var a, b := [a0, a1], [b0, b1];
    if LexLess(a, b) {
      var k :| 0 <= k < 2 && a[..k] == b[..k] && a[k] < b[k];
      assert k == 0 || a[..k][0] == b[..k][0];
    }
    if a0 < b0 {
      assert a[..0] == b[..0];
    } else if a0 == b0 && a1 < b1 {
      assert a[..1] == b[..1];
    }
  }

  lemma LexLessLiteral3(a0: uint, a1: uint, a2: uint, b0: uint, b1: uint, b2: uint)
    ensures LexLess([a0, a1, a2], [b0, b1, b2]) <==>
      a0 < b0 || (a0 == b0 && (a1 < b1 || (a1 == b1 && a2 < b2)))
  {
    var a, b := [a0, a1, a2], [b0, b1, b2];
    if LexLess(a, b) {
      var k :| 0 <= k < 3 && a[..k] == b[..k] && a[k] < b[k];
      assert k == 0 || a[..k][0] == b[..k][0];
      assert k <= 1 || a[..k][1] == b[..k][1];
    }
    if a0 < b0 {
      assert a[..0] == b[..0];
    } else if a0 == b0 && a1 < b1 {
      assert a[..1] == b[..1];
    } else if a0 == b0 && a1 == b1 && a2 < b2 {
      assert a[..2] == b[..2];
    }
  }

  lemma LexLessLiteral4(a0: uint, a1: uint, a2: uint, a3: uint, b0: uint, b1: uint, b2: uint, b3: uint)
    ensures LexLess([a0, a1, a2, a3], [b0, b1, b2, b3]) <==>
      a0 < b0 || (a0 == b0 && (a1 < b1 || (a1 == b1 && (a2 < b2 || (a2 == b2 && a3 < b3)))))
  {
    var a, b := [a0, a1, a2, a3], [b0, b1, b2, b3];
    if LexLess(a, b) {
      var k :| 0 <= k < 4 && a[..k] == b[..k] && a[k] < b[k];
      assert k == 0 || a[..k][0] == b[..k][0];
      assert k <= 1 || a[..k][1] == b[..k][1];
      assert k <= 2 || a[..k][2] == b[..k][2];
    }
    if a0 < b0 {
      assert a[..0] == b[..0];
    } else if a0 == b0 && a1 < b1 {
      assert a[..1] == b[..1];
    } else if a0 == b0 && a1 == b1 && a2 < b2 {
      assert a[..2] == b[..2];
    } else if a0 == b0 && a1 == b1 && a2 == b2 && a3 < b3 {
      assert a[..3] == b[..3];
    }
  }

  /**
   * The canonical order is a strict weak order whose incomparable pairs are
   * exactly the canonically equal ones, so ordered and unordered containers
   * keyed by it agree on which tetrahedra are the same.
   */
  lemma StrictWeakOrder4(a: Connect4, b: Connect4, c: Connect4)
    ensures !CanonicalLess4(a, a)
    ensures CanonicalLess4(a, b) ==> !CanonicalLess4(b, a)
    ensures CanonicalLess4(a, b) && CanonicalLess4(b, c) ==> CanonicalLess4(a, c)
    ensures !CanonicalLess4(a, b) && !CanonicalLess4(b, a) <==> CanonicalEqual4(a, b)
  {
    var sa, sb, sc := Canonical4(a).Items(), Canonical4(b).Items(), Canonical4(c).Items();
    LexLessIrreflexive(sa);
    if LexLess(sa, sb) {
      LexLessAsymmetric(sa, sb);
      if LexLess(sb, sc) {
        LexLessTransitive(sa, sb, sc);
      }
    }
    SameCanonical4(a, b);
    if sa != sb {
      LexLessTotal(sa, sb);
    }
  }

  lemma StrictWeakOrder3(a: Connect3, b: Connect3, c: Connect3)
    ensures !CanonicalLess3(a, a)
    ensures CanonicalLess3(a, b) ==> !CanonicalLess3(b, a)
    ensures CanonicalLess3(a, b) && CanonicalLess3(b, c) ==> CanonicalLess3(a, c)
    ensures !CanonicalLess3(a, b) && !CanonicalLess3(b, a) <==> CanonicalEqual3(a, b)
  {
    var sa, sb, sc := Canonical3(a).Items(), Canonical3(b).Items(), Canonical3(c).Items();
    LexLessIrreflexive(sa);
    if LexLess(sa, sb) {
      LexLessAsymmetric(sa, sb);
      if LexLess(sb, sc) {
        LexLessTransitive(sa, sb, sc);
      }
    }
    SameCanonical3(a, b);
    if sa != sb {
      LexLessTotal(sa, sb);
    }
  }

  lemma StrictWeakOrder2(a: Connect2, b: Connect2, c: Connect2)
    ensures !CanonicalLess2(a, a)
    ensures CanonicalLess2(a, b) ==> !CanonicalLess2(b, a)
    ensures CanonicalLess2(a, b) && CanonicalLess2(b, c) ==> CanonicalLess2(a, c)
    ensures !CanonicalLess2(a, b) && !CanonicalLess2(b, a) <==> CanonicalEqual2(a, b)
  {
    var sa, sb, sc := Canonical2(a).Items(), Canonical2(b).Items(), Canonical2(c).Items();
    LexLessIrreflexive(sa);
    if LexLess(sa, sb) {
      LexLessAsymmetric(sa, sb);
      if LexLess(sb, sc) {
        LexLessTransitive(sa, sb, sc);
      }
    }
    SameCanonical2(a, b);
    if sa != sb {
      LexLessTotal(sa, sb);
    }
  }

  // ---------------------------------------------------------------------------
  // CanonicalSimplexHash (Data.h:46-61, 117-137, 215-239)
  // ---------------------------------------------------------------------------

  /** The sorted components combined into a zero seed, smallest first. */
  function CanonicalHash2(c: Connect2, hasher: uint -> bv64): bv64 {
    CombineAll(0, Canonical2(c).Items(), hasher)
  }

  function CanonicalHash3(c: Connect3, hasher: uint -> bv64): bv64 {
    CombineAll(0, Canonical3(c).Items(), hasher)
  }

  function CanonicalHash4(c: Connect4, hasher: uint -> bv64): bv64 {
    CombineAll(0, Canonical4(c).Items(), hasher)
  }

  /**
   * Canonically equal tuples (in particular, any two orderings of the same
   * indices) hash alike, as unordered containers keyed by the pair
   * (CanonicalSimplexHash, CanonicalSimplexEquality) require.
   */
  lemma HashRespectsEquality2(a: Connect2, b: Connect2, hasher: uint -> bv64)
    requires CanonicalEqual2(a, b)
    ensures CanonicalHash2(a, hasher) == CanonicalHash2(b, hasher)
  {
    SameCanonical2(a, b);
  }

  lemma HashRespectsEquality3(a: Connect3, b: Connect3, hasher: uint -> bv64)
    requires CanonicalEqual3(a, b)
    ensures CanonicalHash3(a, hasher) == CanonicalHash3(b, hasher)
  {
    SameCanonical3(a, b);
  }

  lemma HashRespectsEquality4(a: Connect4, b: Connect4, hasher: uint -> bv64)
    requires CanonicalEqual4(a, b)
    ensures CanonicalHash4(a, hasher) == CanonicalHash4(b, hasher)
  {
    SameCanonical4(a, b);
  }

  /**
   * Plain `operator==` compares position by position: the same tetrahedron
   * listed in two vertex orders is unequal to it, though canonically equal.
   */
  lemma PlainEqualityIsOrderSensitive()
    ensures Connect4(1, 2, 3, 4) != Connect4(4, 3, 2, 1)
    ensures CanonicalEqual4(Connect4(1, 2, 3, 4), Connect4(4, 3, 2, 1))
  {
    PairsAD(1, 2, 3, 4);
    PairsAD(4, 3, 2, 1);
  }

  /** Canonicalising twice is canonicalising once. */
  lemma CanonicalIdempotent4(c: Connect4)
    ensures Canonical4(Canonical4(c)) == Canonical4(c)
  {
  }
}

/**
  Optimality of the greedy merge: no assignment of code lengths that satisfies Kraft's
  inequality, and so no prefix-free binary code, gives a smaller total than the sum of the
  inner node weights of the tree that the merge loop builds.
 */
module HuffmanOptimal {
  import opened Powers
  import opened HuffmanTree

  // ---------- Totals and Kraft sums over aligned sequences ----------

  /** Total of count times length. */
  function Dot(q: seq<Tree>, ls: seq<nat>): nat
    requires |q| == |ls|
  {
    if |q| == 0 then 0 else q[0].Cnt() * ls[0] + Dot(q[1..], ls[1..])
  }

  /** Kraft's sum in units of 2^-top. */
  function Kraft(ls: seq<nat>, top: nat): nat
    requires forall k | 0 <= k < |ls| :: ls[k] <= top
  {
    if |ls| == 0 then 0 else Pow2(top - ls[0]) + Kraft(ls[1..], top)
  }

  predicate Fits(ls: seq<nat>, top: nat) {
    (forall k | 0 <= k < |ls| :: ls[k] <= top) && Kraft(ls, top) <= Pow2(top)
  }

  lemma {:induction false} DotRemove(q: seq<Tree>, ls: seq<nat>, i: nat)
    requires |q| == |ls| && i < |q|
    ensures Dot(q, ls) == q[i].Cnt() * ls[i] + Dot(Remove(q, i), Remove(ls, i))
  {
    if i > 0 {
      DotRemove(q[1..], ls[1..], i - 1);
      assert Remove(q, i)[1..] == Remove(q[1..], i - 1);
      assert Remove(ls, i)[1..] == Remove(ls[1..], i - 1);
    } else {
      assert Remove(q, 0) == q[1..] && Remove(ls, 0) == ls[1..];
    }
  }

  lemma {:induction false} KraftRemove(ls: seq<nat>, i: nat, top: nat)
    requires i < |ls| && forall k | 0 <= k < |ls| :: ls[k] <= top
    ensures Kraft(ls, top) == Pow2(top - ls[i]) + Kraft(Remove(ls, i), top)
  {
    if i > 0 {
      KraftRemove(ls[1..], i - 1, top);
      assert Remove(ls, i)[1..] == Remove(ls[1..], i - 1);
    } else {
      assert Remove(ls, 0) == ls[1..];
    }
  }

  lemma {:induction false} DotAppend(q: seq<Tree>, ls: seq<nat>, t: Tree, l: nat)
    requires |q| == |ls|
    ensures Dot(q + [t], ls + [l]) == Dot(q, ls) + t.Cnt() * l
  {
    if |q| > 0 {
      DotAppend(q[1..], ls[1..], t, l);
      assert (q + [t])[1..] == q[1..] + [t];
      assert (ls + [l])[1..] == ls[1..] + [l];
    }
  }

  lemma {:induction false} KraftAppend(ls: seq<nat>, l: nat, top: nat)
    requires l <= top && forall k | 0 <= k < |ls| :: ls[k] <= top
    ensures Kraft(ls + [l], top) == Kraft(ls, top) + Pow2(top - l)
  {
    if |ls| > 0 {
      KraftAppend(ls[1..], l, top);
      assert (ls + [l])[1..] == ls[1..] + [l];
    }
  }

  // ---------- Giving the longest code to the lightest node ----------

  function Longest(ls: seq<nat>): (p: nat)
    requires |ls| > 0
    ensures p < |ls| && forall k | 0 <= k < |ls| :: ls[k] <= ls[p]
  {
    if |ls| == 1 then 0
    else
      var p := Longest(ls[..|ls| - 1]);
      if ls[|ls| - 1] > ls[p] then |ls| - 1 else p
  }

  lemma SwapUp(a: nat, b: nat, x: nat, y: nat)
    requires a <= b && x <= y
    ensures a * y + b * x <= a * x + b * y
  {
    assert (b - a) * (y - x) >= 0;
    assert (b - a) * (y - x) == b * y - b * x - a * y + a * x;
  }

  function Swapped(ls: seq<nat>, i: nat, p: nat): (r: seq<nat>)
    requires i < |ls| && p < |ls|
    ensures |r| == |ls|
  {
    ls[i := ls[p]][p := ls[i]]
  }

  lemma SwapDot(q: seq<Tree>, ls: seq<nat>, i: nat, p: nat)
    requires |q| == |ls| && i < |q| && p < |q| && i != p
    requires q[i].Cnt() <= q[p].Cnt() && ls[i] <= ls[p]
    ensures Dot(q, Swapped(ls, i, p)) <= Dot(q, ls)
  {
    hide Dot;
    var ls1, ls' := ls[i := ls[p]], Swapped(ls, i, p);
    assert Remove(ls1, i) == Remove(ls, i);
    assert Remove(ls', p) == Remove(ls1, p);
    DotRemove(q, ls, i);
    DotRemove(q, ls1, i);
    DotRemove(q, ls1, p);
    DotRemove(q, ls', p);
    SwapUp(q[i].Cnt(), q[p].Cnt(), ls[i], ls[p]);
  }

  lemma SwapKraft(ls: seq<nat>, i: nat, p: nat, top: nat)
    requires i < |ls| && p < |ls| && i != p && forall k | 0 <= k < |ls| :: ls[k] <= top
    ensures forall k | 0 <= k < |ls| :: Swapped(ls, i, p)[k] <= top
    ensures Kraft(Swapped(ls, i, p), top) == Kraft(ls, top)
  {
    hide Kraft, Pow2;
    var ls1, ls' := ls[i := ls[p]], Swapped(ls, i, p);
    assert Remove(ls1, i) == Remove(ls, i);
    assert Remove(ls', p) == Remove(ls1, p);
    KraftRemove(ls, i, top);
    KraftRemove(ls1, i, top);
    KraftRemove(ls1, p, top);
    KraftRemove(ls', p, top);
  }

  /** Exchange the lengths at i and at a longest position. */
  lemma LongestToTop(q: seq<Tree>, ls: seq<nat>, i: nat, top: nat) returns (ls': seq<nat>)
    requires |q| == |ls| && i < |q| && forall k | 0 <= k < |q| :: q[i].Cnt() <= q[k].Cnt()
    requires forall k | 0 <= k < |ls| :: ls[k] <= top
    ensures |ls'| == |ls| && Dot(q, ls') <= Dot(q, ls)
    ensures (forall k | 0 <= k < |ls'| :: ls'[k] <= top) && Kraft(ls', top) == Kraft(ls, top)
    ensures ls'[i] in ls && forall k | 0 <= k < |ls'| :: ls'[k] <= ls'[i]
  {
    hide Dot, Kraft, Pow2;
    var p := Longest(ls);
    if p == i {
      ls' := ls;
    } else {
      ls' := Swapped(ls, i, p);
      SwapDot(q, ls, i, p);
      SwapKraft(ls, i, p, top);
    }
  }

  // ---------- Shortening a code that is longer than all others ----------

  lemma {:induction false} Pow2Divides(m: nat, n: nat) returns (k: nat)
    requires m <= n
    ensures Pow2(n) == k * Pow2(m)
    decreases n - m
  {
    if m == n {
      k := 1;
    } else {
      var j := Pow2Divides(m, n - 1);
      k := 2 * j;
      assert 2 * (j * Pow2(m)) == (2 * j) * Pow2(m);
    }
  }

  /** The Kraft sum of codes no longer than l is a multiple of 2^(top - l). */
  lemma {:induction false} KraftDivides(ls: seq<nat>, l: nat, top: nat) returns (k: nat)
    requires l <= top && forall i | 0 <= i < |ls| :: ls[i] <= l
    ensures Kraft(ls, top) == k * Pow2(top - l)
  {
    if |ls| == 0 {
      k := 0;
    } else {
      var a := Pow2Divides(top - l, top - ls[0]);
      var b := KraftDivides(ls[1..], l, top);
      k := a + b;
      assert a * Pow2(top - l) + b * Pow2(top - l) == (a + b) * Pow2(top - l);
    }
  }

  lemma NextMultiple(k: nat, n: nat, m: nat, x: nat)
    requires m > 0 && x > 0 && k * m + x <= n * m
    ensures k * m + m <= n * m
  {
    if n <= k {
      TimesMonotone(n, k, m);
    } else {
      TimesMonotone(k + 1, n, m);
      assert (k + 1) * m == k * m + m;
    }
  }

  /**
    If one code is at least as long as all others, it may be cut to the length of the longest
    other one: the sum of the others leaves room for a whole unit of that size.
   */
  lemma RoomForShorter(ls: seq<nat>, l1: nat, l2: nat, top: nat)
    requires l2 <= l1 <= top && |ls| > 0 && l2 in ls && forall k | 0 <= k < |ls| :: ls[k] <= l2
    requires Kraft(ls, top) + Pow2(top - l1) <= Pow2(top)
    ensures Kraft(ls, top) + Pow2(top - l2) <= Pow2(top)
    ensures l2 > 0
  {
    var k := KraftDivides(ls, l2, top);
    var n := Pow2Divides(top - l2, top);
    NextMultiple(k, n, Pow2(top - l2), Pow2(top - l1));
    assert Kraft(ls, top) > 0;
  }

  // ---------- One round of the merge loop ----------

  /** Inner node weights that the rest of the merge loop adds up. */
  function MergeCost(q: seq<Tree>): nat
    requires |q| > 0
    decreases |q|
  {
    if |q| == 1 then 0
    else
      var q' := Step(q);
      q'[|q'| - 1].Cnt() + MergeCost(q')
  }

  /** The two nodes that are popped can be given the two longest codes. */
  lemma TwoLongest(q: seq<Tree>, ls: seq<nat>, top: nat) returns (rest: seq<nat>, l1: nat)
    requires |q| == |ls| > 1 && Fits(ls, top)
    ensures var i := Top(q); var q1 := Remove(q, i); var j := Top(q1);
      && |rest| == |q1| && (forall k | 0 <= k < |rest| :: rest[k] <= rest[j]) && rest[j] <= l1 <= top
      && Kraft(rest, top) + Pow2(top - l1) <= Pow2(top)
      && q[i].Cnt() * l1 + Dot(q1, rest) <= Dot(q, ls)
  {
    hide Dot, Kraft, Pow2;
    var i := Top(q);
    var q1 := Remove(q, i);
    var ls1 := LongestToTop(q, ls, i, top);
    DotRemove(q, ls1, i);
    KraftRemove(ls1, i, top);
    l1 := ls1[i];
    rest := LongestToTop(q1, Remove(ls1, i), Top(q1), top);
  }

  /** Lengths for the queue before a round give lengths for the queue after it. */
  lemma StepLengths(q: seq<Tree>, ls: seq<nat>, top: nat) returns (ls': seq<nat>)
    requires |q| == |ls| > 1 && Fits(ls, top)
    ensures |ls'| == |Step(q)| && Fits(ls', top)
    ensures Step(q)[|q| - 2].Cnt() + Dot(Step(q), ls') <= Dot(q, ls)
  {
    hide Dot, Kraft, Pow2;
    var rest, l1 := TwoLongest(q, ls, top);
    var i := Top(q);
    var q1 := Remove(q, i);
    var j := Top(q1);
    var l2, others := rest[j], Remove(rest, j);
    RoomForShorter(rest, l1, l2, top);
    DotRemove(q1, rest, j);
    KraftRemove(rest, j, top);
    // both become siblings one level up
    ls' := others + [l2 - 1];
    DotAppend(Remove(q1, j), others, Merge(q[i], q1[j]), l2 - 1);
    KraftAppend(others, l2 - 1, top);
    Halves(top, l2);
    MergedCost(q[i].Cnt(), q1[j].Cnt(), l1, l2);
  }

  lemma Halves(top: nat, l: nat)
    requires 0 < l <= top
    ensures Pow2(top - (l - 1)) == 2 * Pow2(top - l)
  {
  }

  lemma MergedCost(a: nat, b: nat, l1: nat, l2: nat)
    requires 0 < l2 <= l1
    ensures (a + b) + (a + b) * (l2 - 1) <= a * l1 + b * l2
  {
    assert (a + b) + (a + b) * (l2 - 1) == a * l2 + b * l2;
    assert a * l2 <= a * l1;
  }

  /** Whatever lengths meet Kraft's inequality, their total is at least the merged weight. */
  lemma {:induction false} GreedyIsMinimal(q: seq<Tree>, ls: seq<nat>, top: nat)
    requires |q| == |ls| > 0 && Fits(ls, top)
    ensures MergeCost(q) <= Dot(q, ls)
    decreases |q|
  {
    if |q| > 1 {
      hide Dot, Kraft, Pow2;
      var ls' := StepLengths(q, ls, top);
      GreedyIsMinimal(Step(q), ls', top);
    }
  }

  // ---------- Kraft's inequality for prefix-free codes ----------

  type Code = seq<bool>

  predicate Comparable(c: Code, d: Code) { c <= d || d <= c }

  predicate PrefixFree(cs: seq<Code>) {
    |cs| == 0 || ((forall d | d in cs[1..] :: !Comparable(cs[0], d)) && PrefixFree(cs[1..]))
  }

  function Lengths(cs: seq<Code>): (ls: seq<nat>)
    ensures |ls| == |cs| && forall k | 0 <= k < |cs| :: ls[k] == |cs[k]|
  {
    if |cs| == 0 then [] else [|cs[0]|] + Lengths(cs[1..])
  }

  /** The codes that start with bit b, without that bit. */
  function Under(cs: seq<Code>, b: bool): seq<Code> {
    if |cs| == 0 then []
    else if |cs[0]| > 0 && cs[0][0] == b then [cs[0][1..]] + Under(cs[1..], b)
    else Under(cs[1..], b)
  }

  lemma {:induction false} UnderElements(cs: seq<Code>, b: bool, t: Code)
    requires t in Under(cs, b)
    ensures [b] + t in cs
  {
    if |cs[0]| > 0 && cs[0][0] == b && t == cs[0][1..] {
      assert cs[0] == [b] + t;
    } else {
      UnderElements(cs[1..], b, t);
    }
  }

  lemma {:induction false} UnderIsPrefixFree(cs: seq<Code>, b: bool)
    requires PrefixFree(cs)
    ensures PrefixFree(Under(cs, b))
  {
    if |cs| > 0 {
      UnderIsPrefixFree(cs[1..], b);
      if |cs[0]| > 0 && cs[0][0] == b {
        var u := Under(cs, b);
        assert u[1..] == Under(cs[1..], b);
        forall t | t in u[1..] ensures !Comparable(cs[0][1..], t) {
          UnderElements(cs[1..], b, t);
          assert cs[0] == [b] + cs[0][1..];
          if Comparable(cs[0][1..], t) { assert Comparable(cs[0], [b] + t); }
        }
      }
    }
  }

  lemma {:induction false} UnderBound(cs: seq<Code>, b: bool, top: nat)
    requires top > 0 && forall c | c in cs :: |c| <= top
    ensures forall t | t in Under(cs, b) :: |t| <= top - 1
  {
    forall t | t in Under(cs, b) ensures |t| <= top - 1 {
      UnderElements(cs, b, t);
    }
  }

  function Size(cs: seq<Code>, top: nat): nat
    requires forall c | c in cs :: |c| <= top
  {
    if |cs| == 0 then 0 else Pow2(top - |cs[0]|) + Size(cs[1..], top)
  }

  lemma {:induction false} SizeSplits(cs: seq<Code>, top: nat)
    requires top > 0 && forall c | c in cs :: 0 < |c| <= top
    ensures forall t | t in Under(cs, false) :: |t| <= top - 1
    ensures forall t | t in Under(cs, true) :: |t| <= top - 1
    ensures Size(cs, top) == Size(Under(cs, false), top - 1) + Size(Under(cs, true), top - 1)
  {
    UnderBound(cs, false, top);
    UnderBound(cs, true, top);
    if |cs| > 0 {
      SizeSplits(cs[1..], top);
      var u := Under(cs, cs[0][0]);
      assert u == [cs[0][1..]] + Under(cs[1..], cs[0][0]);
      assert u[1..] == Under(cs[1..], cs[0][0]);
    }
  }

  /** Kraft's inequality. */
  lemma {:induction false} PrefixFreeFits(cs: seq<Code>, top: nat)
    requires PrefixFree(cs) && forall c | c in cs :: |c| <= top
    ensures Size(cs, top) <= Pow2(top)
    decreases top
  {
    if [] in cs {
      EmptyCodeIsAlone(cs);
    } else if top > 0 {
      SizeSplits(cs, top);
      UnderIsPrefixFree(cs, false);
      UnderIsPrefixFree(cs, true);
      PrefixFreeFits(Under(cs, false), top - 1);
      PrefixFreeFits(Under(cs, true), top - 1);
    }
  }

  lemma FirstIsElement(cs: seq<Code>)
    ensures cs == [] || cs[0] in cs
  {
  }

  lemma EmptyCodeIsAlone(cs: seq<Code>)
    requires PrefixFree(cs) && [] in cs
    ensures cs == [[]]
  {
    FirstIsElement(cs[1..]);
    assert cs == [cs[0]] + cs[1..];
  }

  lemma {:induction false} SizeIsKraft(cs: seq<Code>, top: nat)
    requires forall c | c in cs :: |c| <= top
    ensures forall k | 0 <= k < |cs| :: Lengths(cs)[k] <= top
    ensures Kraft(Lengths(cs), top) == Size(cs, top)
  {
    if |cs| > 0 { SizeIsKraft(cs[1..], top); }
  }

  function MaxLength(cs: seq<Code>): (top: nat)
    ensures forall c | c in cs :: |c| <= top
  {
    if |cs| == 0 then 0
    else
      var top := MaxLength(cs[1..]);
      if |cs[0]| > top then |cs[0]| else top
  }

  /**
    The total of count times code length of every prefix-free code for the queued nodes is at
    least the sum of the inner node weights added by the merge loop.
   */
  lemma MergeIsOptimal(q: seq<Tree>, cs: seq<Code>)
    requires |q| == |cs| > 0 && PrefixFree(cs)
    ensures MergeCost(q) <= Dot(q, Lengths(cs))
  {
    var top := MaxLength(cs);
    PrefixFreeFits(cs, top);
    SizeIsKraft(cs, top);
    GreedyIsMinimal(q, Lengths(cs), top);
  }
}

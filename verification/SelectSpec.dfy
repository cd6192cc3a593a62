/**
  Ranks, and why the median of the medians of groups of five is a good pivot.
 */
module SelectSpec {

  /** How many elements are smaller than v. */
  function Below(s: seq<int>, v: int): (n: nat)
    ensures n <= |s|
  {
    if |s| == 0 then 0 else (if s[0] < v then 1 else 0) + Below(s[1..], v)
  }

  function AtMost(s: seq<int>, v: int): (n: nat)
    ensures n <= |s|
  {
    Below(s, v + 1)
  }

  function AtLeast(s: seq<int>, v: int): nat {
    |s| - Below(s, v)
  }

  /** v is the element at position k of the sorted sequence. */
  predicate IsRank(s: seq<int>, k: int, v: int) {
    v in s && Below(s, v) <= k < AtMost(s, v)
  }

  lemma {:induction false} BelowAppend(s: seq<int>, t: seq<int>, v: int)
    ensures Below(s + t, v) == Below(s, v) + Below(t, v)
  {
    if |s| == 0 {
      assert s + t == t;
    } else {
      assert (s + t)[1..] == s[1..] + t;
      BelowAppend(s[1..], t, v);
    }
  }

  lemma {:induction false} BelowNone(s: seq<int>, v: int)
    requires forall x | x in s :: v <= x
    ensures Below(s, v) == 0
  {
    if |s| > 0 {
      assert s[0] in s && forall x | x in s[1..] :: x in s;
      BelowNone(s[1..], v);
    }
  }

  lemma {:induction false} BelowAll(s: seq<int>, v: int)
    requires forall x | x in s :: x < v
    ensures Below(s, v) == |s|
  {
    if |s| > 0 {
      assert s[0] in s && forall x | x in s[1..] :: x in s;
      BelowAll(s[1..], v);
    }
  }

  lemma {:induction false} BelowMonotone(s: seq<int>, v: int, w: int)
    requires v <= w
    ensures Below(s, v) <= Below(s, w)
  {
    if |s| > 0 { BelowMonotone(s[1..], v, w); }
  }

  function Drop(t: seq<int>, i: nat): seq<int>
    requires i < |t|
  {
    t[..i] + t[i + 1..]
  }

  lemma BelowDrop(t: seq<int>, i: nat, v: int)
    requires i < |t|
    ensures Below(t, v) == Below(Drop(t, i), v) + if t[i] < v then 1 else 0
    ensures multiset(Drop(t, i)) == multiset(t) - multiset{t[i]}
  {
    var back := [t[i]] + t[i + 1..];
    assert back[1..] == t[i + 1..];
    assert Below(back, v) == Below(t[i + 1..], v) + if t[i] < v then 1 else 0;
    hide Below;
    assert t == t[..i] + back;
    BelowAppend(t[..i], back, v);
    BelowAppend(t[..i], t[i + 1..], v);
  }

  lemma {:induction false} BelowOfPermutation(s: seq<int>, t: seq<int>, v: int)
    requires multiset(s) == multiset(t)
    ensures |s| == |t| && Below(s, v) == Below(t, v)
    decreases |s|
  {
    assert |multiset(s)| == |s| && |multiset(t)| == |t|;
    if |s| > 0 {
      assert s[0] in multiset(t);
      var i :| 0 <= i < |t| && t[i] == s[0];
      BelowDrop(s, 0, v);
      BelowDrop(t, i, v);
      hide *;
      BelowOfPermutation(Drop(s, 0), Drop(t, i), v);
    }
  }

  lemma SameRank(s: seq<int>, t: seq<int>, k: int, v: int)
    requires multiset(s) == multiset(t) && IsRank(s, k, v)
    ensures IsRank(t, k, v)
  {
    assert v in multiset(s);
    assert v in multiset(t);
    BelowOfPermutation(s, t, v);
    BelowOfPermutation(s, t, v + 1);
  }

  /** There is only one element of each rank. */
  lemma RankIsUnique(s: seq<int>, k: int, v: int, w: int)
    requires IsRank(s, k, v) && IsRank(s, k, w)
    ensures v == w
  {
    if v < w { BelowMonotone(s, v + 1, w); }
    if w < v { BelowMonotone(s, w + 1, v); }
  }

  predicate IsSorted(s: seq<int>) {
    forall i, j | 0 <= i < j < |s| :: s[i] <= s[j]
  }

  lemma RankInSorted(s: seq<int>, k: nat)
    requires IsSorted(s) && k < |s|
    ensures IsRank(s, k, s[k])
  {
    var v := s[k];
    assert s == s[..k] + s[k..] && s == s[..k + 1] + s[k + 1..];
    BelowAppend(s[..k], s[k..], v);
    BelowNone(s[k..], v);
    BelowAppend(s[..k + 1], s[k + 1..], v + 1);
    BelowAll(s[..k + 1], v + 1);
  }

  // ---------- Narrowing the window ----------

  lemma RankInLower(lo: seq<int>, hi: seq<int>, pivot: int, k: int, v: int)
    requires (forall x | x in lo :: x < pivot) && (forall x | x in hi :: pivot <= x)
    requires IsRank(lo, k, v)
    ensures IsRank(lo + hi, k, v)
  {
    BelowAppend(lo, hi, v);
    BelowAppend(lo, hi, v + 1);
    BelowNone(hi, v);
    BelowNone(hi, v + 1);
  }

  lemma RankInUpper(lo: seq<int>, hi: seq<int>, pivot: int, k: int, v: int)
    requires (forall x | x in lo :: x <= pivot) && (forall x | x in hi :: pivot <= x)
    requires IsRank(hi, k - |lo|, v)
    ensures IsRank(lo + hi, k, v)
  {
    BelowAppend(lo, hi, v);
    BelowAppend(lo, hi, v + 1);
    BelowAll(lo, v + 1);
  }

  /** The pivot's own ranks: lo is below it, mid equals it, nothing behind is below it. */
  lemma RankInMiddle(lo: seq<int>, mid: seq<int>, hi: seq<int>, pivot: int, k: int)
    requires (forall x | x in lo :: x < pivot) && (forall x | x in mid :: x == pivot) && (forall x | x in hi :: pivot <= x)
    requires |lo| <= k < |lo| + |mid|
    ensures IsRank(lo + (mid + hi), k, pivot)
  {
    assert mid[0] in mid;
    assert (lo + (mid + hi))[|lo|] == pivot;
    BelowAppend(lo, mid + hi, pivot);
    BelowNone(mid + hi, pivot);
    BelowAppend(lo, mid + hi, pivot + 1);
    BelowAppend(mid, hi, pivot + 1);
    BelowAll(lo, pivot + 1);
    BelowAll(mid, pivot + 1);
  }

  // ---------- Groups of five ----------

  function Ceil5(n: nat): (m: nat)
    ensures 5 * m - 4 <= n <= 5 * m || n == m == 0
  {
    (n + 4) / 5
  }

  /** One median per group of five; the last group may be smaller. */
  ghost predicate AreMedians(s: seq<int>, medians: seq<int>)
    decreases |s|
  {
    if |s| == 0 then medians == []
    else
      var n := if |s| < 5 then |s| else 5;
      |medians| > 0 && IsRank(s[..n], n / 2, medians[0]) && AreMedians(s[n..], medians[1..])
  }

  lemma {:induction false} MediansAreElements(s: seq<int>, medians: seq<int>)
    requires AreMedians(s, medians)
    ensures |medians| == Ceil5(|s|) && multiset(medians) <= multiset(s)
    decreases |s|
  {
    if |s| > 0 {
      var n := if |s| < 5 then |s| else 5;
      MediansAreElements(s[n..], medians[1..]);
      assert s == s[..n] + s[n..] && medians == [medians[0]] + medians[1..];
      assert medians[0] in s[..n];
      hide IsRank, AreMedians;
      OneMore(multiset(s[..n]), multiset(s[n..]), medians[0], multiset(medians[1..]));
    }
  }

  lemma OneMore(a: multiset<int>, b: multiset<int>, x: int, c: multiset<int>)
    requires x in a && c <= b
    ensures multiset{x} + c <= a + b
  {
  }

  lemma GroupCounts(g: seq<int>, median: int, p: int)
    requires 0 < |g| <= 5 && IsRank(g, |g| / 2, median)
    ensures median <= p ==> AtMost(g, p) >= |g| / 2 + 1
    ensures median >= p ==> AtLeast(g, p) >= |g| - |g| / 2
  {
    if median <= p { BelowMonotone(g, median + 1, p + 1); }
    if median >= p { BelowMonotone(g, p, median); }
  }

  function Slack(n: nat): nat {
    if n % 5 == 0 then 0 else 2
  }

  /** Each group on one side of p has three elements there, the last group at least one. */
  lemma {:induction false} MediansCount(s: seq<int>, medians: seq<int>, p: int)
    requires AreMedians(s, medians)
    ensures AtMost(s, p) >= 3 * AtMost(medians, p) - Slack(|s|)
    ensures AtLeast(s, p) >= 3 * AtLeast(medians, p) - Slack(|s|)
    decreases |s|
  {
    if |s| == 0 {
    } else if |s| < 5 {
      assert s[..|s|] == s && medians == [medians[0]];
      GroupCounts(s, medians[0], p);
      CountsOfOne(medians[0], p);
    } else {
      var g, rest := s[..5], s[5..];
      MediansCount(rest, medians[1..], p);
      GroupCounts(g, medians[0], p);
      hide *;
      assert s == g + rest && medians == [medians[0]] + medians[1..];
      CountsAdd(g, rest, p);
      CountsAdd([medians[0]], medians[1..], p);
      CountsOfOne(medians[0], p);
      SameSlack(|s|);
    }
  }

  lemma SameSlack(n: nat)
    requires n >= 5
    ensures Slack(n) == Slack(n - 5)
  {
  }

  lemma CountsAdd(g: seq<int>, rest: seq<int>, p: int)
    ensures AtMost(g + rest, p) == AtMost(g, p) + AtMost(rest, p)
    ensures AtLeast(g + rest, p) == AtLeast(g, p) + AtLeast(rest, p)
  {
    BelowAppend(g, rest, p);
    BelowAppend(g, rest, p + 1);
  }

  lemma CountsOfOne(x: int, p: int)
    ensures AtMost([x], p) == if x <= p then 1 else 0
    ensures AtLeast([x], p) == if p <= x then 1 else 0
    ensures AtMost([], p) == 0 && AtLeast([], p) == 0
  {
  }

  /** p is not among the extreme elements of s. */
  ghost predicate GoodPivot(s: seq<int>, p: int) {
    var m := Ceil5(|s|);
    p in s && AtMost(s, p) >= 3 * (m / 2) + 1 && AtLeast(s, p) >= 3 * (m - m / 2) - 2
  }

  /** The element of rank m / 2 of the m medians is a good pivot. */
  lemma MedianOfMediansIsGood(s: seq<int>, medians: seq<int>, p: int)
    requires AreMedians(s, medians) && IsRank(medians, |medians| / 2, p)
    ensures GoodPivot(s, p)
  {
    MediansAreElements(s, medians);
    MediansCount(s, medians, p);
    assert p in multiset(medians);
    assert p in multiset(s);
  }

  ghost predicate Distinct(s: seq<int>) {
    forall x {:trigger multiset(s)[x]} :: multiset(s)[x] <= 1
  }

  lemma DistinctPart(s: seq<int>, t: seq<int>)
    requires Distinct(s) && multiset(t) <= multiset(s)
    ensures Distinct(t)
  {
    forall x ensures multiset(t)[x] <= 1 { assert multiset(s)[x] <= 1; }
  }

  lemma {:induction false} CountOfDistinct(s: seq<int>, v: int)
    ensures AtMost(s, v) == Below(s, v) + multiset(s)[v]
  {
    if |s| > 0 {
      assert s == [s[0]] + s[1..];
      CountOfDistinct(s[1..], v);
    }
  }

  // ---------- How far a round narrows the window ----------

  /** The largest window that can be left after a round on n elements. */
  function Kept(n: nat): int {
    n - 3 * (Ceil5(n) / 2) + 2
  }

  /** The part below the pivot is never larger than this, whatever the elements are. */
  lemma LowerSide(s: seq<int>, p: int)
    requires GoodPivot(s, p)
    ensures Below(s, p) <= Kept(|s|)
  {
  }

  /**
    The part kept above it, after lower elements and the equal elements counted by e are dropped,
    is that small when all elements are distinct; e is 0 only if nothing is above the pivot.
   */
  lemma UpperSide(s: seq<int>, p: int, e: nat)
    requires GoodPivot(s, p) && Distinct(s)
    requires e > 0 || Below(s, p) == |s| - 1
    ensures |s| - Below(s, p) - e <= Kept(|s|)
  {
    CountOfDistinct(s, p);
    assert multiset(s)[p] <= 1;
  }

  // ---------- The total work is linear ----------

  /** A bound for the work on n elements: quadratic for short windows, then 180 per element. */
  function Work(n: nat): nat {
    if n <= 35 then 4 * (n * n) else 180 * n
  }

  lemma Squares(a: nat, b: nat)
    requires a <= b
    ensures a * a <= b * b && a * a <= b * a
  {
  }

  lemma WorkMonotone(a: nat, b: nat)
    requires a <= b
    ensures Work(a) <= Work(b)
  {
    Squares(a, b);
    if a <= 35 { Squares(a, 35); }
  }

  lemma WorkAtMost(n: nat)
    ensures Work(n) <= 180 * n
  {
    if n <= 35 { Squares(n, 35); }
  }

  /** One round on n elements: four scans, the medians, and what is kept. */
  lemma RoundFits(n: nat, kept: nat)
    requires n > 5 && kept <= Kept(n) && kept < n
    ensures 4 * n + Work(Ceil5(n)) + Work(kept) <= Work(n)
  {
    var m := Ceil5(n);
    if n <= 35 {
      ShortRound(n, m, kept);
    } else {
      LongRound(n, m);
      WorkAtMost(m);
      WorkAtMost(kept);
    }
  }

  lemma LongRound(n: nat, m: nat)
    requires n > 35 && m == Ceil5(n)
    ensures 4 * n + 180 * m + 180 * Kept(n) <= 180 * n
  {
    assert m >= 8;
    assert m / 2 >= 4 && 2 * (m / 2) >= m - 1;
    if m == 8 || m == 9 { assert m / 2 == 4; }
  }

  lemma Square(n: nat, d: nat)
    requires d <= n
    ensures (n - d) * (n - d) == n * n - 2 * (d * n) + d * d
  {
  }

  lemma ShortRound(n: nat, m: nat, kept: nat)
    requires 5 < n <= 35 && m == Ceil5(n) && kept <= Kept(n) && kept < n
    ensures 4 * n + Work(m) + Work(kept) <= Work(n)
  {
    assert 2 <= m <= 7 && 5 * m - 4 <= n;
    if m <= 3 {
      Square(n, 1);
      Squares(m, 3);
      if m == 2 { Squares(m, 2); }
      ShortWork(n, m, 1, kept);
    } else if m <= 5 {
      assert m / 2 == 2;
      Square(n, 4);
      Squares(m, 5);
      ShortWork(n, m, 4, kept);
    } else {
      assert m / 2 == 3;
      Square(n, 7);
      Squares(m, 7);
      ShortWork(n, m, 7, kept);
    }
  }

  lemma ShortWork(n: nat, m: nat, d: nat, kept: nat)
    requires m <= n <= 35 && kept <= n - d
    requires n + m * m + (n - d) * (n - d) <= n * n
    ensures 4 * n + Work(m) + Work(kept) <= Work(n)
  {
    WorkMonotone(kept, n - d);
  }
}

/**
  Selection by median of medians on an array, as in select.cpp: the result has the wanted rank,
  the array is only permuted, and on distinct elements the work is linear.
 */
module Select {
  import opened SelectSpec

  // ---------- The library's sort and find ----------

  function Insert(x: int, s: seq<int>): (r: seq<int>)
    ensures |r| == |s| + 1
  {
    if |s| == 0 || x <= s[0] then [x] + s else [s[0]] + Insert(x, s[1..])
  }

  function Sorted(s: seq<int>): (r: seq<int>)
    ensures |r| == |s|
  {
    if |s| == 0 then [] else Insert(s[0], Sorted(s[1..]))
  }

  lemma {:induction false} SortedCons(x: int, s: seq<int>)
    ensures IsSorted([x] + s) <==> IsSorted(s) && forall y | y in s :: x <= y
  {
    var l := [x] + s;
    assert l[0] == x && forall i | 0 <= i < |s| :: l[i + 1] == s[i];
    if IsSorted(l) {
      forall i, j | 0 <= i < j < |s| ensures s[i] <= s[j] { assert l[i + 1] <= l[j + 1]; }
      forall y | y in s ensures x <= y {
        var i :| 0 <= i < |s| && s[i] == y;
        assert l[0] <= l[i + 1];
      }
    } else {
      var i, j :| 0 <= i < j < |l| && l[i] > l[j];
      assert l[j] == s[j - 1] && s[j - 1] in s;
      if i > 0 { assert l[i] == s[i - 1]; }
    }
  }

  lemma {:induction false} InsertSorts(x: int, s: seq<int>)
    requires IsSorted(s)
    ensures IsSorted(Insert(x, s)) && multiset(Insert(x, s)) == multiset{x} + multiset(s)
  {
    if |s| > 0 {
      var r := s[1..];
      assert s == [s[0]] + r;
      hide IsSorted;
      SortedCons(s[0], r);
      InsertSorts(x, r);
      SortedCons(x, s);
      SortedCons(s[0], Insert(x, r));
      forall y | y in Insert(x, r) ensures y == x || y in r {
        assert y in multiset(Insert(x, r));
      }
      forall y | y in s ensures y == s[0] || y in r {}
    } else {
      SortedCons(x, []);
    }
  }

  lemma {:induction false} SortedSorts(s: seq<int>)
    ensures IsSorted(Sorted(s)) && multiset(Sorted(s)) == multiset(s)
  {
    if |s| > 0 {
      assert s == [s[0]] + s[1..];
      SortedSorts(s[1..]);
      InsertSorts(s[0], Sorted(s[1..]));
    }
  }

  ghost predicate SameOutside(a: seq<int>, a': seq<int>, left: nat, right: nat) {
    |a'| == |a| && forall k | 0 <= k < |a| && (k < left || right < k) :: a'[k] == a[k]
  }

  ghost predicate RangeSorted(a: seq<int>, a': seq<int>, left: nat, right: nat) {
    left <= right < |a| && SameOutside(a, a', left, right) && a'[left..right + 1] == Sorted(a[left..right + 1])
  }

  method SortRange(arr: array<int>, left: nat, right: nat) returns (ghost steps: nat)
    requires left <= right < arr.Length
    modifies arr
    ensures RangeSorted(old(arr[..]), arr[..], left, right)
    ensures steps == right - left + 1
  {
    var t := Sorted(arr[left..right + 1]);
    hide Sorted;
    steps := 0;
    for i := 0 to |t|
      invariant forall k | 0 <= k < left || right < k < arr.Length :: arr[k] == old(arr[k])
      invariant forall k | 0 <= k < i :: arr[left + k] == t[k]
      invariant steps == i
    {
      arr[left + i] := t[i];
      steps := steps + 1;
    }
    assert arr[..][left..right + 1] == t && old(arr[..])[left..right + 1] == old(arr[left..right + 1]);
  }

  method Find(arr: array<int>, left: nat, right: nat, x: int) returns (i: nat, ghost steps: nat)
    requires left <= right < arr.Length && x in arr[left..right + 1]
    ensures left <= i <= right && arr[i] == x && forall j | left <= j < i :: arr[j] != x
    ensures steps == i - left + 1
  {
    ghost var k :| 0 <= k <= right - left && arr[left..right + 1][k] == x;
    i, steps := left, 1;
    while arr[i] != x
      invariant left <= i <= left + k && steps == i - left + 1 && forall j | left <= j < i :: arr[j] != x
      decreases left + k - i
    {
      i := i + 1;
      steps := steps + 1;
    }
  }

  // ---------- Partition ----------

  /** The window after partition: below the pivot, equal to it, not below it. */
  ghost predicate IsSplit(w: seq<int>, p: int, lower: nat, equal: nat) {
    && lower < |w| && lower + equal <= |w| && (equal > 0 || lower == |w| - 1)
    && (forall i | 0 <= i < lower :: w[i] < p)
    && (forall i | lower <= i < lower + equal :: w[i] == p)
    && (forall i | lower <= i < |w| :: p <= w[i])
  }

  method Swap(arr: array<int>, i: nat, j: nat)
    requires i < arr.Length && j < arr.Length
    modifies arr
    ensures arr[i] == old(arr[j]) && arr[j] == old(arr[i])
    ensures forall k | 0 <= k < arr.Length && k != i && k != j :: arr[k] == old(arr[k])
    ensures multiset(arr[..]) == multiset(old(arr[..]))
  {
    arr[i], arr[j] := arr[j], arr[i];
  }

  /** A permutation that keeps everything outside a window permutes the window. */
  lemma WindowPermuted(a: seq<int>, b: seq<int>, left: nat, right: nat)
    requires |a| == |b| && left <= right < |a|
    requires forall k | 0 <= k < left || right < k < |a| :: a[k] == b[k]
    ensures multiset(a) == multiset(b) <==> multiset(a[left..right + 1]) == multiset(b[left..right + 1])
  {
    assert a == a[..left] + a[left..right + 1] + a[right + 1..];
    assert b == b[..left] + b[left..right + 1] + b[right + 1..];
    assert a[..left] == b[..left] && a[right + 1..] == b[right + 1..];
    Cancel(multiset(a[..left]), multiset(a[left..right + 1]), multiset(b[left..right + 1]), multiset(a[right + 1..]));
  }

  lemma Cancel(x: multiset<int>, a: multiset<int>, b: multiset<int>, y: multiset<int>)
    ensures x + a + y == x + b + y <==> a == b
  {
    if x + a + y == x + b + y {
      forall v ensures a[v] == b[v] { assert (x + a + y)[v] == (x + b + y)[v]; }
    }
  }

  /** Lomuto's scheme: smaller elements first, then the pivot. */
  method Reorder(arr: array<int>, left: nat, right: nat, pivot: nat)
    returns (storeIndex: nat, ghost steps: nat)
    requires left <= pivot <= right < arr.Length
    modifies arr
    ensures forall k | 0 <= k < left || right < k < arr.Length :: arr[k] == old(arr[k])
    ensures multiset(arr[..]) == multiset(old(arr[..]))
    ensures left <= storeIndex <= right && arr[storeIndex] == old(arr[pivot])
    ensures forall k | left <= k < storeIndex :: arr[k] < arr[storeIndex]
    ensures forall k | storeIndex <= k <= right :: arr[storeIndex] <= arr[k]
    ensures steps == right - left
  {
    var pivotValue := arr[pivot];
    Swap(arr, pivot, right);
    storeIndex, steps := left, 0;
    for i := left to right
      invariant left <= storeIndex <= i && steps == i - left
      invariant forall k | 0 <= k < left || right < k < arr.Length :: arr[k] == old(arr[k])
      invariant multiset(arr[..]) == multiset(old(arr[..]))
      invariant arr[right] == pivotValue
      invariant forall k | left <= k < storeIndex :: arr[k] < pivotValue
      invariant forall k | storeIndex <= k < i :: pivotValue <= arr[k]
    {
      if arr[i] < pivotValue {
        Swap(arr, storeIndex, i);
        storeIndex := storeIndex + 1;
      }
      steps := steps + 1;
    }
    Swap(arr, storeIndex, right);
  }

  /** The counting loop at the end of partition, which leaves the last element out. */
  method CountParts(arr: array<int>, left: nat, right: nat, pivotValue: int, ghost storeIndex: nat)
    returns (lower: nat, equal: nat, ghost steps: nat)
    requires left <= storeIndex <= right < arr.Length && arr[storeIndex] == pivotValue
    requires forall k | left <= k < storeIndex :: arr[k] < pivotValue
    requires forall k | storeIndex <= k <= right :: pivotValue <= arr[k]
    ensures lower == storeIndex - left && storeIndex + equal <= right && (equal > 0 || storeIndex == right)
    ensures forall k | storeIndex <= k < storeIndex + equal :: arr[k] == pivotValue
    ensures steps == lower + equal + if lower + equal < right - left then 1 else 0
  {
    lower, equal, steps := 0, 0, 0;
    var i := left;
    while i < right
      invariant left <= i <= right && i == left + lower + equal && steps == i - left
      invariant lower == if i < storeIndex then i - left else storeIndex - left
      invariant forall k | storeIndex <= k < i :: arr[k] == pivotValue
    {
      steps := steps + 1;
      if arr[i] < pivotValue {
        lower := lower + 1;
      } else if arr[i] == pivotValue {
        equal := equal + 1;
      } else {
        break;
      }
      i := i + 1;
    }
  }

  method Partition(arr: array<int>, left: nat, right: nat, pivot: nat)
    returns (lower: nat, equal: nat, ghost steps: nat)
    requires left <= pivot <= right < arr.Length
    modifies arr
    ensures forall k | 0 <= k < left || right < k < arr.Length :: arr[k] == old(arr[k])
    ensures multiset(arr[..]) == multiset(old(arr[..]))
    ensures IsSplit(arr[left..right + 1], old(arr[pivot]), lower, equal)
    ensures steps == right - left + lower + equal + if lower + equal < right - left then 1 else 0
  {
    var pivotValue := arr[pivot];
    var storeIndex, moved := Reorder(arr, left, right, pivot);
    lower, equal, steps := CountParts(arr, left, right, pivotValue, storeIndex);
    steps := steps + moved;
  }

  // ---------- Pivot selection and the narrowing loop ----------

  lemma {:induction false} MediansSnoc(s: seq<int>, medians: seq<int>, g: seq<int>, x: int)
    requires AreMedians(s, medians) && |s| % 5 == 0 && 0 < |g| <= 5 && IsRank(g, |g| / 2, x)
    ensures AreMedians(s + g, medians + [x])
    decreases |s|
  {
    hide IsRank, AreMedians;
    if |s| == 0 {
      NoGroups(medians);
      OneGroup(g, x);
      assert s + g == g && medians + [x] == [x];
    } else {
      FirstGroup(s, medians);
      MediansSnoc(s[5..], medians[1..], g, x);
      assert (s + g)[..5] == s[..5] && (s + g)[5..] == s[5..] + g;
      assert (medians + [x])[1..] == medians[1..] + [x];
      FirstGroup(s + g, medians + [x]);
    }
  }

  lemma NoGroups(medians: seq<int>)
    ensures AreMedians([], medians) <==> medians == []
  {
  }

  lemma OneGroup(g: seq<int>, x: int)
    requires 0 < |g| <= 5 && IsRank(g, |g| / 2, x)
    ensures AreMedians(g, [x])
  {
    hide IsRank;
    assert g[..|g|] == g && g[|g|..] == [] && [x][1..] == [];
    NoGroups([]);
  }

  lemma FirstGroup(s: seq<int>, medians: seq<int>)
    requires |s| >= 5
    ensures AreMedians(s, medians) <==> |medians| > 0 && IsRank(s[..5], 2, medians[0]) && AreMedians(s[5..], medians[1..])
  {
    hide IsRank;
  }

  lemma MedianOfGroup(g: seq<int>)
    requires 0 < |g|
    ensures IsRank(g, |g| / 2, Sorted(g)[|g| / 2])
  {
    SortedSorts(g);
    RankInSorted(Sorted(g), |g| / 2);
    SameRank(Sorted(g), g, |g| / 2, Sorted(g)[|g| / 2]);
  }

  /** The medians of the groups of five, and of the shorter last group. */
  method Medians(arr: array<int>, left: nat, right: nat) returns (medians: seq<int>, ghost steps: nat)
    requires left <= right < arr.Length
    ensures AreMedians(arr[left..right + 1], medians)
    ensures steps == right - left + 1
  {
    var n := right - left + 1;
    var numMedians, remaining := n / 5, n % 5;
    ghost var s := arr[left..right + 1];
    medians, steps := [], 0;
    hide AreMedians, IsRank, Sorted;
    assert AreMedians(s[..0], []) by { NoGroups([]); assert s[..0] == []; }
    for i := 0 to numMedians
      invariant |medians| == i && AreMedians(s[..5 * i], medians) && steps == 5 * i
    {
      var temp := arr[left + 5 * i..left + 5 * i + 5];
      SliceOfSlice(arr[..], left, right + 1, 5 * i, 5 * i + 5);
      MoreMedians(s, i, medians, temp);
      medians, steps := medians + [Sorted(temp)[2]], steps + |temp|;
    }
    if remaining > 0 {
      var temp := arr[left + 5 * numMedians..right + 1];
      SliceOfSlice(arr[..], left, right + 1, 5 * numMedians, n);
      LastMedian(s, numMedians, medians, temp);
      medians, steps := medians + [Sorted(temp)[remaining / 2]], steps + |temp|;
    } else {
      assert s[..5 * numMedians] == s;
    }
  }

  lemma SliceOfSlice(a: seq<int>, l: nat, r: nat, x: nat, y: nat)
    requires x <= y <= r - l && l <= r <= |a|
    ensures a[l..r][x..y] == a[l + x..l + y]
  {
    var u, v := a[l..r][x..y], a[l + x..l + y];
    forall i | 0 <= i < y - x ensures u[i] == v[i] {
      assert a[l..r][x + i] == a[l + (x + i)];
    }
    assert u == v;
  }

  lemma MoreMedians(s: seq<int>, i: nat, medians: seq<int>, temp: seq<int>)
    requires 5 * i + 5 <= |s| && AreMedians(s[..5 * i], medians) && temp == s[5 * i..5 * i + 5]
    ensures AreMedians(s[..5 * (i + 1)], medians + [Sorted(temp)[2]])
  {
    hide AreMedians, IsRank, Sorted;
    MedianOfGroup(temp);
    MediansSnoc(s[..5 * i], medians, temp, Sorted(temp)[2]);
    assert s[..5 * i] + temp == s[..5 * (i + 1)];
  }

  lemma LastMedian(s: seq<int>, i: nat, medians: seq<int>, temp: seq<int>)
    requires 5 * i < |s| < 5 * i + 5 && AreMedians(s[..5 * i], medians) && temp == s[5 * i..|s|]
    ensures AreMedians(s, medians + [Sorted(temp)[|temp| / 2]])
  {
    hide AreMedians, IsRank, Sorted;
    MedianOfGroup(temp);
    MediansSnoc(s[..5 * i], medians, temp, Sorted(temp)[|temp| / 2]);
    assert s[..5 * i] + temp == s;
  }

  method MedianOfMedians(arr: array<int>, left: nat, right: nat) returns (p: int, ghost cost: nat)
    requires left <= right < arr.Length
    ensures GoodPivot(arr[left..right + 1], p)
    ensures Distinct(arr[left..right + 1]) ==> cost <= right - left + 1 + Work(Ceil5(right - left + 1))
    ensures cost >= right - left + 1 + if right - left + 1 > 5 then Ceil5(right - left + 1) else 0
    decreases arr.Length, 0
  {
    hide AreMedians, IsRank, GoodPivot, Distinct, Work;
    ghost var s := arr[left..right + 1];
    var medians, steps := Medians(arr, left, right);
    MediansAreElements(s, medians);
    cost := steps;
    if |medians| == 1 {
      p := medians[0];
      OneMedian(medians);
    } else {
      var rest := new int[|medians|](i requires 0 <= i < |medians| => medians[i]);
      assert rest[..] == medians;
      ghost var more;
      p, more := LinearSelect(rest, |medians| / 2);
      cost := cost + more;
      if Distinct(s) { DistinctPart(s, medians); }
    }
    MedianOfMediansIsGood(s, medians, p);
  }

  lemma OneMedian(medians: seq<int>)
    requires |medians| == 1
    ensures IsRank(medians, 0, medians[0])
  {
  }

  /** What the loop keeps: ranks in the window are ranks in the whole input. */
  ghost predicate Tracks(whole: seq<int>, k0: nat, window: seq<int>, k: nat) {
    && k < |window| && multiset(window) <= multiset(whole)
    && forall v | IsRank(window, k, v) :: IsRank(whole, k0, v)
  }

  lemma TracksPermuted(whole: seq<int>, k0: nat, w: seq<int>, w': seq<int>, k: nat)
    requires Tracks(whole, k0, w, k) && multiset(w') == multiset(w)
    ensures |w'| == |w| && Tracks(whole, k0, w', k)
  {
    assert |multiset(w)| == |w| && |multiset(w')| == |w'|;
    forall v | IsRank(w', k, v) ensures IsRank(whole, k0, v) { SameRank(w', w, k, v); }
  }

  lemma TracksLower(whole: seq<int>, k0: nat, w: seq<int>, k: nat, p: int, lower: nat, equal: nat)
    requires Tracks(whole, k0, w, k) && IsSplit(w, p, lower, equal) && k < lower
    ensures Tracks(whole, k0, w[..lower], k)
  {
    assert w == w[..lower] + w[lower..];
    assert forall x | x in w[..lower] :: x < p;
    assert forall x | x in w[lower..] :: p <= x;
    hide IsSplit, IsRank;
    forall v | IsRank(w[..lower], k, v) ensures IsRank(whole, k0, v) {
      RankInLower(w[..lower], w[lower..], p, k, v);
    }
  }

  lemma TracksUpper(whole: seq<int>, k0: nat, w: seq<int>, k: nat, p: int, lower: nat, equal: nat)
    requires Tracks(whole, k0, w, k) && IsSplit(w, p, lower, equal) && lower + equal <= k
    ensures Tracks(whole, k0, w[lower + equal..], k - (lower + equal))
  {
    var n := lower + equal;
    assert w == w[..n] + w[n..];
    assert forall x | x in w[..n] :: x <= p;
    assert forall x | x in w[n..] :: p <= x;
    hide IsSplit, IsRank;
    forall v | IsRank(w[n..], k - n, v) ensures IsRank(whole, k0, v) {
      RankInUpper(w[..n], w[n..], p, k, v);
    }
  }

  lemma PivotHasRank(whole: seq<int>, k0: nat, w: seq<int>, k: nat, p: int, lower: nat, equal: nat)
    requires Tracks(whole, k0, w, k) && IsSplit(w, p, lower, equal) && lower <= k < lower + equal
    ensures IsRank(whole, k0, w[k])
  {
    var lo, mid, hi := w[..lower], w[lower..lower + equal], w[lower + equal..];
    assert w == lo + (mid + hi);
    RankInMiddle(lo, mid, hi, p, k);
  }

  /** What one round leaves of the window and what it costs. */
  lemma RoundCost(w: seq<int>, w': seq<int>, p: int, lower: nat, equal: nat, kept: nat)
    requires |w| > 5 && GoodPivot(w, p) && Distinct(w) && multiset(w') == multiset(w) && IsSplit(w', p, lower, equal)
    requires kept == lower || kept == |w| - lower - equal
    ensures kept < |w| && 4 * |w| + Work(Ceil5(|w|)) + Work(kept) <= Work(|w|)
  {
    BelowOfPermutation(w, w', p);
    assert w' == w'[..lower] + w'[lower..];
    BelowAppend(w'[..lower], w'[lower..], p);
    BelowAll(w'[..lower], p);
    BelowNone(w'[lower..], p);
    LowerSide(w, p);
    UpperSide(w, p, equal);
    RoundFits(|w|, kept);
  }

  ghost predicate RoundDone(a: seq<int>, a': seq<int>, left: nat, right: nat, p: int, lower: nat, equal: nat, cost: nat) {
    && left <= right < |a| && |a'| == |a| && multiset(a') == multiset(a)
    && multiset(a'[left..right + 1]) == multiset(a[left..right + 1])
    && IsSplit(a'[left..right + 1], p, lower, equal)
    && cost >= 2 * (right - left + 1) + Ceil5(right - left + 1) + lower + equal
    && (Distinct(a[left..right + 1]) ==>
          cost + Work(lower) <= Work(right - left + 1) &&
          cost + Work(right - left + 1 - lower - equal) <= Work(right - left + 1))
  }

  lemma RoundCostsMore(a: seq<int>, a': seq<int>, left: nat, right: nat, p: int, lower: nat, equal: nat, cost: nat)
    requires RoundDone(a, a', left, right, p, lower, equal, cost)
    ensures cost >= right - left + 1
  {
    hide IsSplit, Distinct, Work;
  }

  /** One round: choose a pivot, find it, partition the window around it. */
  method Round(arr: array<int>, left: nat, right: nat) returns (lower: nat, equal: nat, ghost p: int, ghost cost: nat)
    requires left <= right < arr.Length && right - left + 1 > 5
    modifies arr
    ensures RoundDone(old(arr[..]), arr[..], left, right, p, lower, equal, cost)
    decreases arr.Length, 1
  {
    ghost var a := arr[..];
    ghost var w := a[left..right + 1];
    assert arr[left..right + 1] == w;
    hide IsSplit, Distinct, Work, GoodPivot;
    var pivot, spent := MedianOfMedians(arr, left, right);
    p := pivot;
    PivotInside(w, pivot);
    var pivotIndex, found := Find(arr, left, right, pivot);
    ghost var parted;
    lower, equal, parted := Partition(arr, left, right, pivotIndex);
    ghost var w' := arr[..][left..right + 1];
    assert arr[left..right + 1] == w';
    WindowPermuted(a, arr[..], left, right);
    cost := spent + found + parted;
    RoundCosts(w, w', pivot, lower, equal, spent);
  }

  lemma RoundCosts(w: seq<int>, w': seq<int>, p: int, lower: nat, equal: nat, spent: nat)
    requires |w| > 5 && GoodPivot(w, p) && multiset(w') == multiset(w) && IsSplit(w', p, lower, equal)
    requires Distinct(w) ==> spent <= |w| + Work(Ceil5(|w|))
    ensures |w'| == |w| && lower + equal <= |w|
    ensures Distinct(w) ==> spent + 3 * |w| + Work(lower) <= Work(|w|)
    ensures Distinct(w) ==> spent + 3 * |w| + Work(|w| - lower - equal) <= Work(|w|)
  {
    SplitBounds(w', p, lower, equal);
    assert |multiset(w)| == |w| && |multiset(w')| == |w'|;
    hide GoodPivot, Distinct, Work, IsSplit;
    if Distinct(w) {
      RoundCost(w, w', p, lower, equal, lower);
      RoundCost(w, w', p, lower, equal, |w| - lower - equal);
    }
  }

  /** What holds before each round of the loop. */
  ghost predicate Narrowed(whole: seq<int>, k0: nat, a: seq<int>, left: nat, right: nat, k: nat, cost: nat) {
    && left <= right < |a| == |whole| && multiset(a) == multiset(whole)
    && Tracks(whole, k0, a[left..right + 1], k)
    && (Distinct(whole) ==> cost + Work(right - left + 1) <= Work(|whole|))
  }

  lemma StartsNarrowed(whole: seq<int>, k0: nat)
    requires k0 < |whole|
    ensures Narrowed(whole, k0, whole, 0, |whole| - 1, k0, 0)
  {
    assert whole[0..|whole| - 1 + 1] == whole;
  }

  /** A window of at most five elements is sorted and read off. */
  lemma Sorting(whole: seq<int>, k0: nat, a: seq<int>, a': seq<int>, left: nat, right: nat, k: nat, cost: nat)
    requires Narrowed(whole, k0, a, left, right, k, cost) && RangeSorted(a, a', left, right)
    ensures multiset(a') == multiset(whole) && left + k < |a'| == |whole| && IsRank(whole, k0, a'[left + k])
    ensures Distinct(whole) ==> cost + (right - left + 1) <= Work(|whole|)
  {
    var w := a[left..right + 1];
    hide Distinct, Work, IsRank;
    SmallWindow(whole, k0, w, k);
    WindowPermuted(a', a, left, right);
    assert a'[left + k] == a'[left..right + 1][k];
  }

  lemma Narrowing(whole: seq<int>, k0: nat, a: seq<int>, a': seq<int>, left: nat, right: nat, k: nat, cost: nat,
                  p: int, lower: nat, equal: nat, spent: nat)
    requires Narrowed(whole, k0, a, left, right, k, cost) && RoundDone(a, a', left, right, p, lower, equal, spent)
    ensures lower <= right - left && (equal > 0 || lower == right - left)
    ensures multiset(a') == multiset(whole)
    ensures k < lower ==> Narrowed(whole, k0, a', left, left + lower - 1, k, cost + spent)
    ensures lower <= k < lower + equal ==>
              left + k < |a'| && IsRank(whole, k0, a'[left + k]) && (Distinct(whole) ==> cost + spent <= Work(|whole|))
    ensures lower + equal <= k ==>
              left + lower + equal <= right &&
              Narrowed(whole, k0, a', left + lower + equal, right, k - (lower + equal), cost + spent)
  {
    var w, w' := a[left..right + 1], a'[left..right + 1];
    TracksPermuted(whole, k0, w, w', k);
    SplitBounds(w', p, lower, equal);
    if Distinct(whole) { DistinctPart(whole, w); }
    hide Distinct, Work, IsRank, IsSplit;
    if k < lower {
      TracksLower(whole, k0, w', k, p, lower, equal);
      assert a'[left..left + lower] == w'[..lower];
    } else if k < lower + equal {
      PivotHasRank(whole, k0, w', k, p, lower, equal);
      assert a'[left + k] == w'[k];
    } else {
      TracksUpper(whole, k0, w', k, p, lower, equal);
      assert a'[left + lower + equal..right + 1] == w'[lower + equal..];
    }
  }

  /**
    The element of rank k0.  The array is permuted.  The cost counts the elements that are compared
    in the scans over windows and those that are handed to the library's sort, always in groups of
    at most five: on distinct elements at most 180 per element of the array.
   */
  method LinearSelect(arr: array<int>, k0: nat) returns (v: int, ghost cost: nat)
    requires k0 < arr.Length
    modifies arr
    ensures multiset(arr[..]) == multiset(old(arr[..]))
    ensures IsRank(old(arr[..]), k0, v)
    ensures Distinct(old(arr[..])) ==> cost <= Work(arr.Length) <= 180 * arr.Length
    ensures cost >= arr.Length
    decreases arr.Length, 2
  {
    hide *;
    ghost var whole := arr[..];
    var left: nat, right: int, k: nat := 0, arr.Length - 1, k0;
    cost := 0;
    WorkAtMost(arr.Length);
    StartsNarrowed(whole, k0);
    while left <= right
      invariant left <= right < arr.Length && Narrowed(whole, k0, arr[..], left, right, k, cost)
      invariant (left == 0 && right == arr.Length - 1) || cost >= arr.Length
      decreases right - left
    {
      ghost var was := arr[..];
      if right - left + 1 <= 5 {
        ghost var steps := SortRange(arr, left, right);
        Sorting(whole, k0, was, arr[..], left, right, k, cost);
        cost := cost + steps;
        return arr[left + k], cost;
      }
      var lower, equal, pivot, spent := Round(arr, left, right);
      Narrowing(whole, k0, was, arr[..], left, right, k, cost, pivot, lower, equal, spent);
      RoundCostsMore(was, arr[..], left, right, pivot, lower, equal, spent);
      cost := cost + spent;
      if k < lower {
        right := left + lower - 1;
      } else if k < lower + equal {
        return arr[left + k], cost;
      } else {
        left := left + lower + equal;
        k := k - (lower + equal);
      }
    }
    assert false;
  }

  lemma SplitBounds(w: seq<int>, p: int, lower: nat, equal: nat)
    requires IsSplit(w, p, lower, equal)
    ensures lower + equal < |w| || (equal > 0 && lower + equal == |w|)
    ensures lower < |w| && (equal > 0 || lower == |w| - 1)
  {
  }

  lemma PivotInside(w: seq<int>, p: int)
    requires GoodPivot(w, p)
    ensures p in w
  {
  }

  lemma SelfSquare(n: nat)
    ensures n <= n * n
  {
    if n > 0 { Squares(1, n); assert n * n == (n - 1) * n + n; }
  }

  lemma SmallWindow(whole: seq<int>, k0: nat, w: seq<int>, k: nat)
    requires Tracks(whole, k0, w, k)
    ensures IsRank(whole, k0, Sorted(w)[k]) && multiset(Sorted(w)) == multiset(w)
    ensures |w| <= Work(|w|)
  {
    SortedSorts(w);
    TracksPermuted(whole, k0, w, Sorted(w), k);
    RankInSorted(Sorted(w), k);
    SelfSquare(|w|);
  }
}

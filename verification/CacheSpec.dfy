/**
  Least-recently-used sets as lists of tags, most recent first, and what the simulator's
  counters mean: recency, stack distance, inclusion between caches of different associativity.
 */
module CacheSpec {
  import opened Powers

  // ---------- One set ----------

  function Without(l: seq<int>, tag: int): seq<int> {
    if |l| == 0 then []
    else if l[0] == tag then l[1..]
    else [l[0]] + Without(l[1..], tag)
  }

  /** The set after a reference to tag when it has e lines. */
  function Use(l: seq<int>, tag: int, e: nat): seq<int>
    requires 0 < e
  {
    if tag in l then [tag] + Without(l, tag)
    else if |l| < e then [tag] + l
    else [tag] + l[..e - 1]
  }

  /** 0 for a hit, 1 for a miss that fills a free line, 2 for a miss that evicts. */
  function Outcome(l: seq<int>, tag: int, e: nat): nat {
    if tag in l then 0 else if |l| < e then 1 else 2
  }

  predicate NoRepeats(l: seq<int>) {
    forall j, k | 0 <= j < k < |l| :: l[j] != l[k]
  }

  function Prefix(l: seq<int>, e: nat): (p: seq<int>)
    ensures |p| <= e && p <= l
  {
    if |l| <= e then l else l[..e]
  }

  lemma NoRepeatsCons(x: int, r: seq<int>)
    ensures NoRepeats([x] + r) <==> x !in r && NoRepeats(r)
  {
    var l := [x] + r;
    assert forall k | 0 <= k < |r| :: l[k + 1] == r[k];
    if NoRepeats(l) {
      forall k | 0 <= k < |r| ensures r[k] != x { assert l[0] != l[k + 1]; }
      forall j, k | 0 <= j < k < |r| ensures r[j] != r[k] { assert l[j + 1] != l[k + 1]; }
    }
  }

  lemma {:induction false} WithoutElements(l: seq<int>, tag: int)
    requires NoRepeats(l)
    ensures NoRepeats(Without(l, tag)) && tag !in Without(l, tag)
    ensures forall t :: t in Without(l, tag) <==> t in l && t != tag
    ensures |Without(l, tag)| == if tag in l then |l| - 1 else |l|
  {
    if |l| > 0 {
      var r := l[1..];
      assert l == [l[0]] + r;
      NoRepeatsCons(l[0], r);
      WithoutElements(r, tag);
      NoRepeatsCons(l[0], Without(r, tag));
    }
  }

  // ---------- Recency of an unbounded history ----------

  /** The different tags of a history, the last used one first. */
  function Recency(h: seq<int>): (l: seq<int>) {
    if |h| == 0 then [] else [h[|h| - 1]] + Without(Recency(h[..|h| - 1]), h[|h| - 1])
  }

  lemma {:induction false} RecencyElements(h: seq<int>)
    ensures NoRepeats(Recency(h))
    ensures forall t :: t in Recency(h) <==> t in h
  {
    if |h| > 0 {
      var r := h[..|h| - 1];
      assert h == r + [h[|h| - 1]];
      RecencyElements(r);
      WithoutElements(Recency(r), h[|h| - 1]);
    }
  }

  lemma {:induction false} PrefixCons(x: int, r: seq<int>, e: nat)
    requires 0 < e
    ensures Prefix([x] + r, e) == [x] + Prefix(r, e - 1)
  {
  }

  lemma {:induction false} WithoutCons(x: int, r: seq<int>, tag: int)
    ensures Without([x] + r, tag) == if x == tag then r else [x] + Without(r, tag)
  {
    assert ([x] + r)[1..] == r;
  }

  lemma {:induction false} RestOfPrefix(l: seq<int>, tag: int, e: nat)
    requires 0 < e
    ensures Prefix(Without(l, tag), e - 1) ==
            if tag in Prefix(l, e) then Without(Prefix(l, e), tag) else Prefix(l, e - 1)
  {
    if |l| == 0 { return; }
    var x, r := l[0], l[1..];
    assert l == [x] + r;
    hide Prefix, Without;
    PrefixCons(x, r, e);
    WithoutCons(x, r, tag);
    WithoutCons(x, Prefix(r, e - 1), tag);
    if x != tag && e > 1 {
      RestOfPrefix(r, tag, e - 1);
      PrefixCons(x, Without(r, tag), e - 1);
      PrefixCons(x, r, e - 1);
    }
  }

  /** What a reference does to the first e entries of a list, whatever comes behind them. */
  lemma UsePrefix(l: seq<int>, tag: int, e: nat)
    requires 0 < e
    ensures Use(Prefix(l, e), tag, e) == Prefix([tag] + Without(l, tag), e)
  {
    RestOfPrefix(l, tag, e);
    assert Prefix([tag] + Without(l, tag), e) == [tag] + Prefix(Without(l, tag), e - 1);
  }

  /** The tags used in the history after the last use of tag. */
  function Since(h: seq<int>, tag: int): set<int> {
    if |h| == 0 || h[|h| - 1] == tag then {} else Since(h[..|h| - 1], tag) + {h[|h| - 1]}
  }

  /** The entries of the list in front of tag. */
  function Front(l: seq<int>, tag: int): (f: set<int>)
    ensures forall t | t in f :: t in l
  {
    if |l| == 0 || l[0] == tag then {} else {l[0]} + Front(l[1..], tag)
  }

  lemma {:induction false} FrontWithout(l: seq<int>, x: int, tag: int)
    requires NoRepeats(l) && x != tag
    ensures Front(Without(l, x), tag) == Front(l, tag) - {x}
  {
    if |l| > 0 {
      var r := l[1..];
      assert l == [l[0]] + r;
      NoRepeatsCons(l[0], r);
      FrontWithout(r, x, tag);
      assert ([l[0]] + Without(r, x))[1..] == Without(r, x);
    }
  }

  /** In the recency list, the entries in front of a tag are the tags used since its last use. */
  lemma {:induction false} FrontIsSince(h: seq<int>, tag: int)
    requires tag in h
    ensures Front(Recency(h), tag) == Since(h, tag)
  {
    var x, r := h[|h| - 1], h[..|h| - 1];
    assert h == r + [x];
    if x != tag {
      RecencyElements(r);
      FrontIsSince(r, tag);
      FrontWithout(Recency(r), x, tag);
      assert Recency(h)[1..] == Without(Recency(r), x);
    }
  }

  lemma {:induction false} InPrefixIff(l: seq<int>, tag: int, e: nat)
    requires NoRepeats(l)
    ensures tag in Prefix(l, e) <==> tag in l && |Front(l, tag)| < e
  {
    if |l| > 0 && e > 0 {
      var r := l[1..];
      assert l == [l[0]] + r;
      NoRepeatsCons(l[0], r);
      assert Prefix(l, e) == [l[0]] + Prefix(r, e - 1);
      InPrefixIff(r, tag, e - 1);
    }
  }

  /**
    A reference hits in a set of e lines exactly when its tag was used before and fewer than e
    different tags of the set have been used since.
   */
  lemma HitIffRecentlyUsed(h: seq<int>, tag: int, e: nat)
    ensures tag in Prefix(Recency(h), e) <==> tag in h && |Since(h, tag)| < e
  {
    RecencyElements(h);
    InPrefixIff(Recency(h), tag, e);
    if tag in h { FrontIsSince(h, tag); }
  }

  // ---------- The whole cache ----------

  datatype Ref = Ref(set_: nat, tag: int)

  datatype State = State(lists: seq<seq<int>>, hits: nat, misses: nat, evictions: nat)

  function Fresh(sets: nat): State {
    State(seq(sets, _ => []), 0, 0, 0)
  }

  function Access(st: State, r: Ref, e: nat): (st': State)
    requires 0 < e && r.set_ < |st.lists|
    ensures |st'.lists| == |st.lists|
  {
    var l := st.lists[r.set_];
    var outcome := Outcome(l, r.tag, e);
    State(st.lists[r.set_ := Use(l, r.tag, e)],
          st.hits + if outcome == 0 then 1 else 0,
          st.misses + if outcome == 0 then 0 else 1,
          st.evictions + if outcome == 2 then 1 else 0)
  }

  predicate InSets(refs: seq<Ref>, sets: nat) {
    forall r | r in refs :: r.set_ < sets
  }

  function Run(sets: nat, refs: seq<Ref>, e: nat): (st: State)
    requires 0 < e && InSets(refs, sets)
    ensures |st.lists| == sets
  {
    if |refs| == 0 then Fresh(sets) else Access(Run(sets, refs[..|refs| - 1], e), refs[|refs| - 1], e)
  }

  /** The tags referenced in one set, in order. */
  function History(refs: seq<Ref>, s: nat): seq<int> {
    if |refs| == 0 then []
    else
      var r := refs[|refs| - 1];
      History(refs[..|refs| - 1], s) + if r.set_ == s then [r.tag] else []
  }

  lemma {:induction false} RecencySnoc(h: seq<int>, tag: int)
    ensures Recency(h + [tag]) == [tag] + Without(Recency(h), tag)
  {
    assert (h + [tag])[..|h|] == h;
  }

  /** Every set holds its most recently used tags, as many as it has lines. */
  lemma {:induction false} SetsHoldMostRecent(sets: nat, refs: seq<Ref>, e: nat, s: nat)
    requires 0 < e && InSets(refs, sets) && s < sets
    ensures Run(sets, refs, e).lists[s] == Prefix(Recency(History(refs, s)), e)
  {
    if |refs| > 0 {
      var before, r := refs[..|refs| - 1], refs[|refs| - 1];
      hide Prefix, Recency, Without, Use, Outcome;
      SetsHoldMostRecent(sets, before, e, s);
      var h := History(before, s);
      if r.set_ == s {
        UsePrefix(Recency(h), r.tag, e);
        RecencySnoc(h, r.tag);
      } else {
        assert History(refs, s) == h;
      }
    }
  }

  /** A reference at the end of any trace hits exactly when its tag was used recently enough. */
  lemma HitsExactly(sets: nat, refs: seq<Ref>, r: Ref, e: nat)
    requires 0 < e && InSets(refs, sets) && r.set_ < sets
    ensures var st, h := Run(sets, refs, e), History(refs, r.set_);
      Access(st, r, e).hits == st.hits + if r.tag in h && |Since(h, r.tag)| < e then 1 else 0
  {
    SetsHoldMostRecent(sets, refs, e, r.set_);
    HitIffRecentlyUsed(History(refs, r.set_), r.tag, e);
  }

  // ---------- Counters ----------

  function ValidLines(lists: seq<seq<int>>): nat {
    if |lists| == 0 then 0 else |lists[0]| + ValidLines(lists[1..])
  }

  lemma {:induction false} ValidLinesUpdate(lists: seq<seq<int>>, s: nat, l: seq<int>)
    requires s < |lists|
    ensures ValidLines(lists[s := l]) == ValidLines(lists) - |lists[s]| + |l|
  {
    if s > 0 {
      ValidLinesUpdate(lists[1..], s - 1, l);
      assert lists[s := l][1..] == lists[1..][s - 1 := l];
    } else {
      assert lists[0 := l][1..] == lists[1..];
    }
  }

  lemma {:induction false} NothingValid(sets: nat)
    ensures ValidLines(seq(sets, _ => [])) == 0
  {
    if sets > 0 {
      NothingValid(sets - 1);
      assert seq<seq<int>>(sets, _ => [])[1..] == seq<seq<int>>(sets - 1, _ => []);
    }
  }

  ghost predicate AddUp(st: State, total: nat, e: nat) {
    && st.hits + st.misses == total
    && st.misses - st.evictions == ValidLines(st.lists)
    && forall s | 0 <= s < |st.lists| :: |st.lists[s]| <= e && NoRepeats(st.lists[s])
  }

  lemma UsedSet(l: seq<int>, tag: int, e: nat)
    requires 0 < e && |l| <= e && NoRepeats(l)
    ensures |Use(l, tag, e)| <= e && NoRepeats(Use(l, tag, e))
    ensures |Use(l, tag, e)| == |l| + if Outcome(l, tag, e) == 1 then 1 else 0
  {
    WithoutElements(l, tag);
    var rest := if tag in l then Without(l, tag) else if |l| < e then l else l[..e - 1];
    assert Use(l, tag, e) == [tag] + rest;
    NoRepeatsCons(tag, rest);
  }

  lemma AccessAddsUp(st: State, total: nat, r: Ref, e: nat)
    requires 0 < e && r.set_ < |st.lists| && AddUp(st, total, e)
    ensures AddUp(Access(st, r, e), total + 1, e)
  {
    var l := st.lists[r.set_];
    UsedSet(l, r.tag, e);
    hide Use, NoRepeats, ValidLines;
    ValidLinesUpdate(st.lists, r.set_, Use(l, r.tag, e));
  }

  /** Every reference is a hit or a miss, and misses that evict nothing fill one line each. */
  lemma {:induction false} CountersAddUp(sets: nat, refs: seq<Ref>, e: nat)
    requires 0 < e && InSets(refs, sets)
    ensures AddUp(Run(sets, refs, e), |refs|, e)
  {
    if |refs| == 0 {
      NothingValid(sets);
    } else {
      CountersAddUp(sets, refs[..|refs| - 1], e);
      AccessAddsUp(Run(sets, refs[..|refs| - 1], e), |refs| - 1, refs[|refs| - 1], e);
    }
  }

  /**
    Inclusion: with the same sets, a cache with more lines per set always holds what the
    smaller one holds, and never has fewer hits, more misses or more evictions.
   */
  lemma {:induction false} MoreLinesNeverHurt(sets: nat, refs: seq<Ref>, e: nat, e': nat)
    requires 0 < e <= e' && InSets(refs, sets)
    ensures var st, st' := Run(sets, refs, e), Run(sets, refs, e');
      && (forall s | 0 <= s < sets :: st.lists[s] <= st'.lists[s])
      && st.hits <= st'.hits && st'.misses <= st.misses && st'.evictions <= st.evictions
  {
    HitsIncluded(sets, refs, e, e');
    CountersAddUp(sets, refs, e);
    CountersAddUp(sets, refs, e');
    forall s | 0 <= s < sets
      ensures Run(sets, refs, e).lists[s] <= Run(sets, refs, e').lists[s]
    {
      SetsHoldMostRecent(sets, refs, e, s);
      SetsHoldMostRecent(sets, refs, e', s);
    }
    ShorterListsFewerLines(Run(sets, refs, e).lists, Run(sets, refs, e').lists);
  }

  lemma {:induction false} HitsIncluded(sets: nat, refs: seq<Ref>, e: nat, e': nat)
    requires 0 < e <= e' && InSets(refs, sets)
    ensures Run(sets, refs, e).hits <= Run(sets, refs, e').hits
  {
    if |refs| > 0 {
      var before, r := refs[..|refs| - 1], refs[|refs| - 1];
      HitsIncluded(sets, before, e, e');
      HitsExactly(sets, before, r, e);
      HitsExactly(sets, before, r, e');
    }
  }

  lemma {:induction false} ShorterListsFewerLines(a: seq<seq<int>>, b: seq<seq<int>>)
    requires |a| == |b| && forall s | 0 <= s < |a| :: a[s] <= b[s]
    ensures ValidLines(a) <= ValidLines(b)
  {
    if |a| > 0 {
      assert |a[0]| <= |b[0]|;
      ShorterListsFewerLines(a[1..], b[1..]);
    }
  }

  // ---------- Trace lines ----------

  /** One trace line: the instruction letter and the address. */
  datatype Line = Line(ins: char, addr: int)

  /** (addr & mask) >> b and addr >> (s + b) */
  function Split(addr: int, s: nat, b: nat): (r: Ref)
    ensures r.set_ < Pow2(s)
  {
    PowAdds(s, b);
    SetInRange(addr, Pow2(s), Pow2(b));
    Ref((addr % Pow2(s + b)) / Pow2(b), addr / Pow2(s + b))
  }

  lemma {:induction false} PowAdds(s: nat, b: nat)
    ensures Pow2(s + b) == Pow2(s) * Pow2(b)
  {
    if s > 0 {
      PowAdds(s - 1, b);
      Doubled(Pow2(s - 1), Pow2(b));
    }
  }

  lemma Doubled(x: nat, y: nat)
    ensures 2 * (x * y) == (2 * x) * y
  {
  }

  lemma SetInRange(addr: int, sets: nat, block: nat)
    requires sets > 0 && block > 0
    ensures sets * block > 0 && 0 <= (addr % (sets * block)) / block < sets
  {
    assert sets * block > 0;
    BelowQuotient(addr % (sets * block), sets, block);
  }

  lemma BelowQuotient(low: nat, sets: nat, block: nat)
    requires block > 0 && low < sets * block
    ensures low / block < sets
  {
    if low / block >= sets { TimesMonotone(sets, low / block, block); }
  }

  /** Set and tag together name the block of the address, so no two blocks are confused. */
  lemma SplitNamesTheBlock(addr: int, s: nat, b: nat)
    ensures var r := Split(addr, s, b); r.tag * Pow2(s) + r.set_ == addr / Pow2(b)
  {
    var m, n, p := Pow2(s), Pow2(b), Pow2(s + b);
    PowAdds(s, b);
    var high, low := DivMod(addr, p);
    BlockOf(addr, m, n, p, high, low);
    var r := Split(addr, s, b);
    assert r.tag == high && r.set_ == low / n;
    hide *;
    assert r.tag * m == high * m;
  }

  lemma DivMod(x: int, p: nat) returns (high: int, low: nat)
    requires p > 0
    ensures high == x / p && low == x % p && x == p * high + low
  {
    high, low := x / p, x % p;
  }

  lemma BlockOf(addr: int, m: nat, n: nat, p: nat, high: int, low: nat)
    requires m > 0 && n > 0 && p == m * n && addr == p * high + low
    ensures high * m + low / n == addr / n
  {
    assert p * high == n * (high * m);
    QuotientIs(addr, n, high * m + low / n, low % n);
  }

  /** A load or store is one reference, a modify is two, other lines are skipped. */
  function Refs(line: Line, s: nat, b: nat): seq<Ref> {
    var r := Split(line.addr, s, b);
    if line.ins == 'M' then [r, r] else if line.ins == 'L' || line.ins == 'S' then [r] else []
  }

  function AllRefs(trace: seq<Line>, s: nat, b: nat): (refs: seq<Ref>)
    ensures InSets(refs, Pow2(s))
  {
    if |trace| == 0 then []
    else AllRefs(trace[..|trace| - 1], s, b) + Refs(trace[|trace| - 1], s, b)
  }

  /** The second reference of a modify always hits. */
  lemma ModifyHitsAgain(st: State, r: Ref, e: nat)
    requires 0 < e && r.set_ < |st.lists|
    ensures Outcome(Access(st, r, e).lists[r.set_], r.tag, e) == 0
  {
    assert Use(st.lists[r.set_], r.tag, e)[0] == r.tag;
  }

  function Resume(st: State, refs: seq<Ref>, e: nat): (st': State)
    requires 0 < e && InSets(refs, |st.lists|)
    ensures |st'.lists| == |st.lists|
    decreases |refs|
  {
    if |refs| == 0 then st
    else
      assert refs[0] in refs;
      assert forall r | r in refs[1..] :: r in refs;
      Resume(Access(st, refs[0], e), refs[1..], e)
  }

  lemma ResumeOneOrTwo(st: State, r: Ref, e: nat)
    requires 0 < e && r.set_ < |st.lists|
    ensures Resume(st, [], e) == st && Resume(st, [r], e) == Access(st, r, e)
    ensures Resume(st, [r, r], e) == Access(Access(st, r, e), r, e)
  {
    assert [r, r][1..] == [r] && [r][1..] == [];
    var st1 := Access(st, r, e);
    assert Resume(st, [r], e) == Resume(st1, [], e);
    assert Resume(st1, [r], e) == Resume(Access(st1, r, e), [], e);
    assert Resume(st, [r, r], e) == Resume(st1, [r], e);
  }

  lemma {:induction false} RunOfAppend(sets: nat, refs: seq<Ref>, more: seq<Ref>, e: nat)
    requires 0 < e && InSets(refs, sets) && InSets(more, sets)
    ensures InSets(refs + more, sets) && Run(sets, refs + more, e) == Resume(Run(sets, refs, e), more, e)
    decreases |more|
  {
    if |more| == 0 {
      assert refs + more == refs;
    } else {
      assert more[0] in more && forall r | r in more[1..] :: r in more;
      assert refs + more == (refs + [more[0]]) + more[1..];
      assert (refs + [more[0]])[..|refs|] == refs;
      RunOfAppend(sets, refs + [more[0]], more[1..], e);
    }
  }

  lemma AllRefsSnoc(trace: seq<Line>, n: nat, s: nat, b: nat)
    requires n < |trace|
    ensures AllRefs(trace[..n + 1], s, b) == AllRefs(trace[..n], s, b) + Refs(trace[n], s, b)
    ensures InSets(Refs(trace[n], s, b), Pow2(s))
  {
    var r := Split(trace[n].addr, s, b);
    assert forall x | x in Refs(trace[n], s, b) :: x == r;
    assert trace[..n + 1][..n] == trace[..n];
  }

  /** How many lines of the trace have the instruction letter. */
  function Lines(trace: seq<Line>, ins: char): nat {
    if |trace| == 0 then 0 else Lines(trace[..|trace| - 1], ins) + if trace[|trace| - 1].ins == ins then 1 else 0
  }

  lemma {:induction false} TraceReferences(trace: seq<Line>, s: nat, b: nat)
    ensures |AllRefs(trace, s, b)| == Lines(trace, 'L') + Lines(trace, 'S') + 2 * Lines(trace, 'M')
  {
    hide Split;
    if |trace| > 0 { TraceReferences(trace[..|trace| - 1], s, b); }
  }

  lemma {:induction false} ModifiesHit(trace: seq<Line>, s: nat, b: nat, e: nat)
    requires 0 < e
    ensures Run(Pow2(s), AllRefs(trace, s, b), e).hits >= Lines(trace, 'M')
  {
    if |trace| > 0 {
      var n := |trace| - 1;
      var r := Split(trace[n].addr, s, b);
      assert trace[..n + 1] == trace;
      AllRefsSnoc(trace, n, s, b);
      ModifiesHit(trace[..n], s, b, e);
      hide AllRefs, Run, Split, Access;
      RunOfAppend(Pow2(s), AllRefs(trace[..n], s, b), Refs(trace[n], s, b), e);
      HitsGrow(Run(Pow2(s), AllRefs(trace[..n], s, b), e), r, e);
      ResumeOneOrTwo(Run(Pow2(s), AllRefs(trace[..n], s, b), e), r, e);
      hide Resume;
    }
  }

  lemma HitsGrow(st: State, r: Ref, e: nat)
    requires 0 < e && r.set_ < |st.lists|
    ensures Access(st, r, e).hits >= st.hits
    ensures Access(Access(st, r, e), r, e).hits >= st.hits + 1
  {
    ModifyHitsAgain(st, r, e);
    hide Use, Outcome;
  }

  /** The counters of a trace: one reference a load or store, two a modify, of which the second hits. */
  lemma CountersOfTrace(trace: seq<Line>, s: nat, b: nat, e: nat)
    requires 0 < e
    ensures var st := Run(Pow2(s), AllRefs(trace, s, b), e);
      && st.hits + st.misses == Lines(trace, 'L') + Lines(trace, 'S') + 2 * Lines(trace, 'M')
      && st.hits >= Lines(trace, 'M') && st.evictions <= st.misses
  {
    hide Run, AllRefs, Lines, ValidLines;
    TraceReferences(trace, s, b);
    ModifiesHit(trace, s, b, e);
    CountersAddUp(Pow2(s), AllRefs(trace, s, b), e);
    NeverNegative(Run(Pow2(s), AllRefs(trace, s, b), e).lists);
  }

  lemma NeverNegative(lists: seq<seq<int>>)
    ensures ValidLines(lists) >= 0
  {
  }
}

/**
  The simulator of csim.c: each set is an array of lines (valid bit lowest, tag above it) and an
  array of last-use times.  Every reference does to the arrays what Use does to the list of tags
  ordered by recency.
 */
module CacheSim {
  import opened CacheSpec
  import opened Powers

  // ---------- What the arrays of one set stand for ----------

  predicate IsValid(line: int) { line % 2 == 1 }

  function TagOf(line: int): int { line / 2 }

  function LineOf(tag: int): (line: int)
    ensures IsValid(line) && TagOf(line) == tag
  {
    2 * tag + 1
  }

  function CountValid(lines: seq<int>): (n: nat)
    ensures n <= |lines|
  {
    if |lines| == 0 then 0 else (if IsValid(lines[0]) then 1 else 0) + CountValid(lines[1..])
  }

  lemma {:induction false} CountUpdate(lines: seq<int>, i: nat, line: int)
    requires i < |lines|
    ensures CountValid(lines[i := line]) ==
            CountValid(lines) - (if IsValid(lines[i]) then 1 else 0) + (if IsValid(line) then 1 else 0)
  {
    if i > 0 {
      CountUpdate(lines[1..], i - 1, line);
      assert lines[i := line][1..] == lines[1..][i - 1 := line];
    } else {
      assert lines[0 := line][1..] == lines[1..];
    }
  }

  lemma {:induction false} AllValid(lines: seq<int>)
    ensures CountValid(lines) == |lines| <==> forall i | 0 <= i < |lines| :: IsValid(lines[i])
  {
    if |lines| > 0 {
      var r := lines[1..];
      AllValid(r);
      assert forall i | 0 <= i < |r| :: r[i] == lines[i + 1];
      if forall i | 0 <= i < |r| :: IsValid(r[i]) {
        assert forall i | 0 < i < |lines| :: lines[i] == r[i - 1];
      } else {
        var i :| 0 <= i < |r| && !IsValid(r[i]);
        assert !IsValid(lines[i + 1]);
      }
    }
  }

  /** Each tag of the list is in the line where says, each valid line holds a tag of the list. */
  ghost predicate Holds(lines: seq<int>, l: seq<int>, where_: map<int, nat>) {
    && NoRepeats(l) && |l| == CountValid(lines)
    && (forall t | t in l :: t in where_ && where_[t] < |lines| && lines[where_[t]] == LineOf(t))
    && forall i | 0 <= i < |lines| && IsValid(lines[i]) ::
         TagOf(lines[i]) in l && TagOf(lines[i]) in where_ && where_[TagOf(lines[i])] == i
  }

  /** The time at which a listed tag was last used. */
  function TimeOf(recent: seq<int>, where_: map<int, nat>, t: int): int {
    if t in where_ && where_[t] < |recent| then recent[where_[t]] else 0
  }

  /** Tags further to the front were used later, and none later than now. */
  ghost predicate Timed(recent: seq<int>, l: seq<int>, where_: map<int, nat>, time: int) {
    && (forall t | t in l :: TimeOf(recent, where_, t) <= time)
    && forall a, b | b in l && a in Front(l, b) :: TimeOf(recent, where_, a) > TimeOf(recent, where_, b)
  }

  // ---------- The three outcomes on the arrays ----------

  /** Whichever tag goes to the front with the new time, the rest keep their order. */
  lemma FrontIsNewest(recent: seq<int>, recent': seq<int>, rest: seq<int>, where_: map<int, nat>, where': map<int, nat>,
                      time: int, tag: int)
    requires Timed(recent, rest, where_, time) && tag !in rest
    requires forall t | t in rest :: TimeOf(recent', where', t) == TimeOf(recent, where_, t)
    requires TimeOf(recent', where', tag) == time + 1
    ensures Timed(recent', [tag] + rest, where', time + 1)
  {
    assert ([tag] + rest)[1..] == rest;
  }

  lemma RestStaysTimed(recent: seq<int>, l: seq<int>, where_: map<int, nat>, time: int, x: int)
    requires NoRepeats(l) && Timed(recent, l, where_, time)
    ensures Timed(recent, Without(l, x), where_, time)
  {
    WithoutElements(l, x);
    forall a, b | b in Without(l, x) && a in Front(Without(l, x), b)
      ensures TimeOf(recent, where_, a) > TimeOf(recent, where_, b)
    {
      FrontWithout(l, x, b);
    }
  }

  lemma HitStep(lines: seq<int>, recent: seq<int>, l: seq<int>, where_: map<int, nat>, time: int, i: nat, e: nat)
    requires Holds(lines, l, where_) && Timed(recent, l, where_, time) && |recent| == |lines| == e
    requires i < e && IsValid(lines[i])
    ensures var tag := TagOf(lines[i]);
      && Outcome(l, tag, e) == 0 && Holds(lines, Use(l, tag, e), where_)
      && Timed(recent[i := time + 1], Use(l, tag, e), where_, time + 1)
  {
    var tag := TagOf(lines[i]);
    var rest := Without(l, tag);
    WithoutElements(l, tag);
    NoRepeatsCons(tag, rest);
    RestStaysTimed(recent, l, where_, time, tag);
    hide Timed, NoRepeats, Front, Without, CountValid;
    FrontIsNewest(recent, recent[i := time + 1], rest, where_, where_, time, tag);
  }

  lemma FillStep(lines: seq<int>, recent: seq<int>, l: seq<int>, where_: map<int, nat>, time: int, i: nat, tag: int, e: nat)
    requires Holds(lines, l, where_) && Timed(recent, l, where_, time) && |recent| == |lines| == e
    requires i < e && !IsValid(lines[i]) && tag !in l
    ensures var lines', where' := lines[i := LineOf(tag)], where_[tag := i];
      && Outcome(l, tag, e) == 1 && Holds(lines', Use(l, tag, e), where')
      && Timed(recent[i := time + 1], Use(l, tag, e), where', time + 1)
  {
    AllValid(lines);
    CountUpdate(lines, i, LineOf(tag));
    NoRepeatsCons(tag, l);
    hide Timed, NoRepeats, Front, Without, CountValid;
    assert Use(l, tag, e) == [tag] + l;
    FrontIsNewest(recent, recent[i := time + 1], l, where_, where_[tag := i], time, tag);
  }

  lemma HeadInFront(l: seq<int>)
    requires NoRepeats(l) && |l| > 1
    ensures l[1] in l && l[0] in Front(l, l[1])
  {
  }

  /** A tag that is in front of no other one is the last of the list. */
  lemma {:induction false} InFrontOfNone(l: seq<int>, x: int)
    requires NoRepeats(l) && x in l && forall b | b in l :: x !in Front(l, b)
    ensures l == Without(l, x) + [x]
  {
    var r := l[1..];
    assert l == [l[0]] + r;
    NoRepeatsCons(l[0], r);
    if |r| > 0 { HeadInFront(l); }
    if l[0] != x {
      forall b | b in r ensures x !in Front(r, b) {
        assert b in l;
      }
      InFrontOfNone(r, x);
    }
  }

  /** The line with the smallest time holds the last tag of the list. */
  lemma OldestIsLast(lines: seq<int>, recent: seq<int>, l: seq<int>, where_: map<int, nat>, time: int, i: nat)
    requires Holds(lines, l, where_) && Timed(recent, l, where_, time) && |recent| == |lines|
    requires i < |lines| && IsValid(lines[i]) && forall k | 0 <= k < |lines| :: recent[i] <= recent[k]
    ensures l == Without(l, TagOf(lines[i])) + [TagOf(lines[i])]
  {
    var x := TagOf(lines[i]);
    forall b | b in l ensures x !in Front(l, b) {
      assert TimeOf(recent, where_, x) == recent[i] <= TimeOf(recent, where_, b);
    }
    InFrontOfNone(l, x);
  }

  lemma EvictHolds(lines: seq<int>, l: seq<int>, where_: map<int, nat>, i: nat, tag: int)
    requires Holds(lines, l, where_) && i < |lines| && IsValid(lines[i]) && tag !in l
    ensures Holds(lines[i := LineOf(tag)], [tag] + Without(l, TagOf(lines[i])), where_[tag := i])
  {
    var x := TagOf(lines[i]);
    CountUpdate(lines, i, LineOf(tag));
    WithoutElements(l, x);
    NoRepeatsCons(tag, Without(l, x));
    hide NoRepeats, Without, CountValid;
  }

  lemma EvictTimed(lines: seq<int>, recent: seq<int>, l: seq<int>, where_: map<int, nat>, time: int, i: nat, tag: int)
    requires Holds(lines, l, where_) && Timed(recent, l, where_, time) && |recent| == |lines|
    requires i < |lines| && IsValid(lines[i]) && tag !in l
    ensures Timed(recent[i := time + 1], [tag] + Without(l, TagOf(lines[i])), where_[tag := i], time + 1)
  {
    var x := TagOf(lines[i]);
    var rest := Without(l, x);
    WithoutElements(l, x);
    RestStaysTimed(recent, l, where_, time, x);
    hide Timed, NoRepeats, Front, Without, CountValid;
    FrontIsNewest(recent, recent[i := time + 1], rest, where_, where_[tag := i], time, tag);
  }

  lemma EvictStep(lines: seq<int>, recent: seq<int>, l: seq<int>, where_: map<int, nat>, time: int, i: nat, tag: int, e: nat)
    requires Holds(lines, l, where_) && Timed(recent, l, where_, time) && |recent| == |lines| == e
    requires i < e && tag !in l
    requires forall k | 0 <= k < e :: IsValid(lines[k]) && recent[i] <= recent[k]
    ensures var lines', where' := lines[i := LineOf(tag)], where_[tag := i];
      && Outcome(l, tag, e) == 2 && Holds(lines', Use(l, tag, e), where')
      && Timed(recent[i := time + 1], Use(l, tag, e), where', time + 1)
  {
    AllValid(lines);
    assert |l| == e;
    hide Timed, Holds, NoRepeats, Front, Without, CountValid;
    EvictHolds(lines, l, where_, i, tag);
    EvictTimed(lines, recent, l, where_, time, i, tag);
    OldestIsLast(lines, recent, l, where_, time, i);
    assert l[..e - 1] == Without(l, TagOf(lines[i]));
  }

  lemma EmptySet(lines: seq<int>, recent: seq<int>)
    requires |lines| == |recent| && forall i | 0 <= i < |lines| :: lines[i] == 0
    ensures Holds(lines, [], map[]) && Timed(recent, [], map[], 0)
  {
    NoneValid(lines);
  }

  lemma {:induction false} NoneValid(lines: seq<int>)
    requires forall i | 0 <= i < |lines| :: lines[i] == 0
    ensures CountValid(lines) == 0
  {
    if |lines| > 0 { NoneValid(lines[1..]); }
  }

  // ---------- The simulator ----------

  class CacheSet {
    const lines: array<int>
    const recentUse: array<int>
    /** The tags of the valid lines, the last used one first. */
    ghost var list: seq<int>
    ghost var where_: map<int, nat>

    ghost predicate Valid(e: nat, time: int)
      reads this, lines, recentUse
    {
      && lines != recentUse && lines.Length == recentUse.Length == e
      && Holds(lines[..], list, where_) && Timed(recentUse[..], list, where_, time)
    }

    /** setInit: no line is valid. */
    constructor (e: nat)
      ensures Valid(e, 0) && list == [] && fresh(lines) && fresh(recentUse)
    {
      lines := new int[e](_ => 0);
      recentUse := new int[e](_ => 0);
      list, where_ := [], map[];
      new;
      EmptySet(lines[..], recentUse[..]);
    }

    lemma ValidLater(e: nat, time: int)
      requires Valid(e, time)
      ensures Valid(e, time + 1)
    {
    }

    /** loadOrStore inside one set: 0 hit, 1 miss, 2 miss with eviction. */
    method LoadOrStore(tag: int, time: int) returns (outcome: nat)
      requires Valid(lines.Length, time) && lines.Length > 0
      modifies this, lines, recentUse
      ensures Valid(lines.Length, time + 1)
      ensures outcome == Outcome(old(list), tag, lines.Length)
      ensures list == Use(old(list), tag, lines.Length)
    {
      ghost var was, at := lines[..], recentUse[..];
      var now := time + 1;
      hide Use, Timed;
      for i := 0 to lines.Length
        invariant lines[..] == was && recentUse[..] == at && list == old(list) && where_ == old(where_)
        invariant forall k | 0 <= k < i :: !(IsValid(lines[k]) && TagOf(lines[k]) == tag)
      {
        if IsValid(lines[i]) && TagOf(lines[i]) == tag {
          HitStep(was, at, list, where_, time, i, lines.Length);
          hide Holds, Outcome;
          recentUse[i] := now;
          list := Use(list, tag, lines.Length);
          assert recentUse[..] == at[i := now] && lines[..] == was;
          return 0;
        }
      }
      assert tag !in list;
      hide Holds, Outcome;
      var lineID := -1;
      for i := 0 to lines.Length
        invariant lines[..] == was && recentUse[..] == at && list == old(list) && where_ == old(where_)
        invariant forall k | 0 <= k < i :: IsValid(lines[k])
        invariant if i == 0 then lineID == -1 else
                    0 <= lineID < i && forall k | 0 <= k < i :: recentUse[lineID] <= recentUse[k]
      {
        if !IsValid(lines[i]) {
          FillStep(was, at, list, where_, time, i, tag, lines.Length);
          lines[i] := LineOf(tag);
          recentUse[i] := now;
          list, where_ := Use(list, tag, lines.Length), where_[tag := i];
          assert lines[..] == was[i := LineOf(tag)] && recentUse[..] == at[i := now];
          return 1;
        } else if lineID == -1 || recentUse[lineID] > recentUse[i] {
          lineID := i;
        }
      }
      EvictStep(was, at, list, where_, time, lineID, tag, lines.Length);
      lines[lineID] := LineOf(tag);
      recentUse[lineID] := now;
      list, where_ := Use(list, tag, lines.Length), where_[tag := lineID];
      assert lines[..] == was[lineID := LineOf(tag)] && recentUse[..] == at[lineID := now];
      return 2;
    }
  }

  class Mem {
    var currentTime: int
    var hitTimes: nat
    var missTimes: nat
    var evicTimes: nat
    const sets: seq<CacheSet>
    const e: nat

    ghost predicate Apart() {
      && (forall i, j | 0 <= i < |sets| && 0 <= j < |sets| :: sets[i].lines != sets[j].recentUse)
      && forall i, j | 0 <= i < j < |sets| ::
           sets[i] != sets[j] && sets[i].lines != sets[j].lines && sets[i].recentUse != sets[j].recentUse
    }

    ghost predicate Valid()
      reads this, sets, set i | 0 <= i < |sets| :: sets[i].lines, set i | 0 <= i < |sets| :: sets[i].recentUse
    {
      && 0 < e && Apart()
      && forall i | 0 <= i < |sets| :: sets[i].Valid(e, currentTime)
    }

    /** The counters and the tags of every set, last used first. */
    ghost function Value(): (st: State)
      reads this, sets
      ensures |st.lists| == |sets|
    {
      State(seq(|sets|, i requires 0 <= i < |sets| reads sets => sets[i].list), hitTimes, missTimes, evicTimes)
    }

    /** memInit: 2^s sets of e free lines. */
    constructor (s: nat, e: nat)
      requires 0 < e
      ensures Valid() && Value() == Fresh(Pow2(s)) && this.e == e
      ensures fresh(sets) && forall i | 0 <= i < |sets| :: fresh(sets[i].lines) && fresh(sets[i].recentUse)
    {
      hide Holds, Timed;
      var all: seq<CacheSet> := [];
      for i := 0 to Pow2(s)
        invariant |all| == i && fresh(all)
        invariant forall k | 0 <= k < i ::
          all[k].Valid(e, 0) && all[k].list == [] && fresh(all[k].lines) && fresh(all[k].recentUse)
        invariant forall j, k | 0 <= j < i && 0 <= k < i :: all[j].lines != all[k].recentUse
        invariant forall j, k | 0 <= j < k < i ::
          all[j] != all[k] && all[j].lines != all[k].lines && all[j].recentUse != all[k].recentUse
      {
        var one := new CacheSet(e);
        all := all + [one];
      }
      this.e, sets := e, all;
      currentTime, hitTimes, missTimes, evicTimes := 0, 0, 0, 0;
    }

    lemma LengthIs(setID: nat)
      requires Valid() && setID < |sets|
      ensures sets[setID].lines.Length == e
    {
    }

    /** One reference: count it and bring its tag to the front of its set. */
    method LoadOrStore(setID: nat, tag: int) returns (outcome: nat)
      requires Valid() && setID < |sets|
      modifies this, sets[setID], sets[setID].lines, sets[setID].recentUse
      ensures Valid() && Value() == Access(old(Value()), Ref(setID, tag), e)
      ensures outcome == Outcome(old(Value().lists[setID]), tag, e)
    {
      hide Use, Outcome, CacheSet.Valid;
      assert sets[setID].lines.Length == e by { LengthIs(setID); }
      outcome := sets[setID].LoadOrStore(tag, currentTime);
      forall i | 0 <= i < |sets| && i != setID ensures sets[i].Valid(e, currentTime + 1) {
        sets[i].ValidLater(e, currentTime);
      }
      currentTime := currentTime + 1;
      if outcome == 0 {
        hitTimes := hitTimes + 1;
      } else {
        missTimes := missTimes + 1;
        if outcome == 2 {
          evicTimes := evicTimes + 1;
        }
      }
      assert Value().lists == old(Value().lists)[setID := sets[setID].list];
    }

    /** Two references to the same block; the second one hits. */
    method Modify(setID: nat, tag: int) returns (x: nat)
      requires Valid() && setID < |sets|
      modifies this, sets[setID], sets[setID].lines, sets[setID].recentUse
      ensures Valid() && Value() == Access(Access(old(Value()), Ref(setID, tag), e), Ref(setID, tag), e)
      ensures x == Outcome(old(Value().lists[setID]), tag, e)
    {
      x := LoadOrStore(setID, tag);
      ModifyHitsAgain(old(Value()), Ref(setID, tag), e);
      var y := LoadOrStore(setID, tag);
      x := x + y;
    }

    /** One trace line. */
    method Process(line: Line, s: nat, b: nat)
      requires Valid() && |sets| == Pow2(s)
      modifies this, sets[Split(line.addr, s, b).set_],
        sets[Split(line.addr, s, b).set_].lines, sets[Split(line.addr, s, b).set_].recentUse
      ensures Valid() && Value() == Resume(old(Value()), Refs(line, s, b), e)
    {
      var r := Split(line.addr, s, b);
      ResumeOneOrTwo(Value(), r, e);
      hide Access, Split, Resume, Value, Valid;
      if line.ins == 'M' {
        var x := Modify(r.set_, r.tag);
      } else if line.ins == 'L' || line.ins == 'S' {
        var x := LoadOrStore(r.set_, r.tag);
      }
    }
  }

  /** The trace loop of main: simulate the cache over all lines of the trace. */
  method Simulate(s: nat, b: nat, e: nat, trace: seq<Line>) returns (hits: nat, misses: nat, evictions: nat)
    requires 0 < e
    ensures var st := Run(Pow2(s), AllRefs(trace, s, b), e);
      hits == st.hits && misses == st.misses && evictions == st.evictions
    ensures hits + misses == Lines(trace, 'L') + Lines(trace, 'S') + 2 * Lines(trace, 'M')
  {
    var memory := new Mem(s, e);
    assert |memory.sets| == Pow2(s) by { assert |memory.Value().lists| == Pow2(s); }
    hide Access, Split, Resume, Refs, Pow2, Mem.Valid, Fresh, Lines;
    for n := 0 to |trace|
      invariant memory.Valid() && memory.e == e && |memory.sets| == Pow2(s)
      invariant fresh(memory) && fresh(memory.sets)
      invariant forall i | 0 <= i < |memory.sets| :: fresh(memory.sets[i].lines) && fresh(memory.sets[i].recentUse)
      invariant memory.Value() == Run(Pow2(s), AllRefs(trace[..n], s, b), e)
    {
      memory.Process(trace[n], s, b);
      assert trace[..n + 1][..n] == trace[..n];
      hide Run, AllRefs, Mem.Value;
      RunOfAppend(Pow2(s), AllRefs(trace[..n], s, b), Refs(trace[n], s, b), e);
      AllRefsSnoc(trace, n, s, b);
    }
    assert trace[..|trace|] == trace;
    CountersOfTrace(trace, s, b, e);
    return memory.hitTimes, memory.missTimes, memory.evicTimes;
  }
}

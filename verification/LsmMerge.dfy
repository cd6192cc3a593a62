/**
  The k-way merge of a compaction: for every key the entry of the newest table that holds it,
  written out in key order in tables of at most MAX_NUM entries.
 */
module LsmMerge {
  import opened LsmTable
  import opened Options

  const MAX_NUM: nat := 408

  // ---------- Which table wins a key ----------

  /** The first of the newest tables among the first n that hold k; -1 if none does. */
  function Winner(cands: seq<Table>, k: nat, n: nat): (w: int)
    requires n <= |cands|
    ensures -1 <= w < n
    ensures w >= 0 ==> Lookup(cands[w].entries, k).Some?
  {
    if n == 0 then -1
    else
      var w := Winner(cands, k, n - 1);
      if Lookup(cands[n - 1].entries, k).Some? && (w < 0 || cands[n - 1].time > cands[w].time) then n - 1 else w
  }

  lemma {:induction false} WinnerIsNewest(cands: seq<Table>, k: nat, n: nat)
    requires n <= |cands|
    ensures var w := Winner(cands, k, n);
      forall i | 0 <= i < n && Lookup(cands[i].entries, k).Some? ::
        w >= 0 && cands[i].time <= cands[w].time && (i < w ==> cands[i].time < cands[w].time)
  {
    if n > 0 { WinnerIsNewest(cands, k, n - 1); }
  }

  lemma {:induction false} NoWinner(cands: seq<Table>, k: nat, n: nat)
    requires n <= |cands| && forall i | 0 <= i < n :: Lookup(cands[i].entries, k).None?
    ensures Winner(cands, k, n) == -1
  {
    if n > 0 { NoWinner(cands, k, n - 1); }
  }

  datatype Item = Item(entry: Entry, time: nat)

  function Won(cands: seq<Table>, k: nat): (r: Option<Item>)
    ensures r.Some? ==> r.value.entry.key == k
  {
    var w := Winner(cands, k, |cands|);
    if w < 0 then None else Some(Item(Lookup(cands[w].entries, k).value, cands[w].time))
  }

  /** What the merge keeps of a key: deleted keys go when the output level is the deepest one. */
  function Kept(cands: seq<Table>, drop: bool, k: nat): (r: Option<Item>)
    ensures r.Some? ==> r.value.entry.key == k
  {
    var r := Won(cands, k);
    if r.Some? && drop && r.value.entry.len == 0 then None else r
  }

  ghost predicate HasItem(items: seq<Item>, k: nat) {
    exists i :: 0 <= i < |items| && items[i].entry.key == k
  }

  /** items is what the merge keeps of all keys below bound, in key order. */
  ghost predicate Merged(cands: seq<Table>, drop: bool, items: seq<Item>, bound: nat) {
    && (forall i, j | 0 <= i < j < |items| :: items[i].entry.key < items[j].entry.key)
    && (forall i | 0 <= i < |items| :: items[i].entry.key < bound)
    && (forall i | 0 <= i < |items| :: Kept(cands, drop, items[i].entry.key) == Some(items[i]))
    && forall k: nat | k < bound && Kept(cands, drop, k).Some? :: HasItem(items, k)
  }

  // ---------- The cursors ----------

  ghost predicate AllOk(cands: seq<Table>, h: Hash) {
    forall i | 0 <= i < |cands| :: cands[i].Ok(h)
  }

  /** Cursor i stands at the first entry of table i whose key is at least bound. */
  ghost predicate At(cands: seq<Table>, p: seq<nat>, bound: nat) {
    && |p| == |cands|
    && forall i | 0 <= i < |p| :: AtOne(cands[i].entries, p[i], bound)
  }

  ghost predicate AtOne(es: seq<Entry>, p: nat, bound: nat) {
    && p <= |es|
    && (forall j | 0 <= j < p :: es[j].key < bound)
    && forall j | p <= j < |es| :: bound <= es[j].key
  }

  lemma HeldAtCursor(es: seq<Entry>, p: nat, bound: nat, k: nat)
    requires Sorted(es) && AtOne(es, p, bound) && bound <= k && (p < |es| ==> k <= es[p].key)
    ensures Lookup(es, k) == if p < |es| && es[p].key == k then Some(es[p]) else None
  {
    if p < |es| && es[p].key == k {
      LookupAt(es, p);
    } else {
      forall j | 0 <= j < |es| ensures es[j].key != k {
        if j > p { assert es[p].key < es[j].key; }
      }
    }
  }

  /** The loop over the candidates: the smallest key at a cursor, and the entry that wins it. */
  method PickMin(cands: seq<Table>, p: seq<nat>, ghost bound: nat, ghost h: Hash)
    returns (flag: bool, item: Item)
    requires AllOk(cands, h) && At(cands, p, bound)
    ensures flag <==> exists i :: 0 <= i < |cands| && p[i] < |cands[i].entries|
    ensures flag ==> bound <= item.entry.key <= KEY_MAX && Won(cands, item.entry.key) == Some(item)
    ensures flag ==> forall i | 0 <= i < |cands| && p[i] < |cands[i].entries| ::
              item.entry.key <= cands[i].entries[p[i]].key
    ensures flag ==> exists i :: 0 <= i < |cands| && p[i] < |cands[i].entries| && cands[i].entries[p[i]].key == item.entry.key
  {
    hide At, AllOk, Leads, Won, Table.Ok;
    AtBounds(cands, p, bound);
    flag := false;
    var key: nat, offset: nat, len: nat, time: nat := KEY_MAX, 0, 0, 0;
    ghost var w := -1;
    for n := 0 to |cands|
      invariant flag <==> exists i :: 0 <= i < n && p[i] < |cands[i].entries|
      invariant !flag ==> key == KEY_MAX && time == 0
      invariant flag ==> Leads(cands, p, n, w, Item(Entry(key, offset, len), time)) && bound <= key <= KEY_MAX
    {
      if p[n] < |cands[n].entries| {
        var tmp := cands[n].entries[p[n]];
        KeyInRange(cands, h, n, p[n]);
        if tmp.key < key {
          NewLeader(cands, p, bound, h, n, w, Item(Entry(key, offset, len), time), flag);
          key, offset, time, len := tmp.key, tmp.offset, cands[n].time, tmp.len;
          w := n;
        } else if tmp.key == key && cands[n].time > time {
          SameKey(cands, p, bound, h, n, w, Item(Entry(key, offset, len), time), flag);
          offset, time, len := tmp.offset, cands[n].time, tmp.len;
          w := n;
        } else {
          LeaderStays(cands, p, bound, h, n, w, Item(Entry(key, offset, len), time));
        }
        flag := true;
      } else if flag {
        LeaderStays(cands, p, bound, h, n, w, Item(Entry(key, offset, len), time));
      }
    }
    item := Item(Entry(key, offset, len), time);
    if flag { LeaderWins(cands, p, bound, h, w, item); }
  }

  /** After n candidates, w leads: its current entry has the smallest key and wins it. */
  ghost predicate Leads(cands: seq<Table>, p: seq<nat>, n: nat, w: int, item: Item)
    requires |p| == |cands| && n <= |cands|
  {
    && 0 <= w < n && p[w] < |cands[w].entries|
    && cands[w].entries[p[w]] == item.entry && cands[w].time == item.time
    && (forall i | 0 <= i < n && p[i] < |cands[i].entries| :: item.entry.key <= cands[i].entries[p[i]].key)
    && Winner(cands, item.entry.key, n) == w
  }

  lemma LeaderWins(cands: seq<Table>, p: seq<nat>, bound: nat, h: Hash, w: int, item: Item)
    requires AllOk(cands, h) && At(cands, p, bound) && |p| == |cands| && Leads(cands, p, |cands|, w, item)
    ensures Won(cands, item.entry.key) == Some(item)
    ensures forall i | 0 <= i < |cands| && p[i] < |cands[i].entries| ::
              item.entry.key <= cands[i].entries[p[i]].key
    ensures exists i :: 0 <= i < |cands| && p[i] < |cands[i].entries| && cands[i].entries[p[i]].key == item.entry.key
  {
    assert cands[w].Ok(h);
    LookupAt(cands[w].entries, p[w]);
  }

  lemma KeyInRange(cands: seq<Table>, h: Hash, n: nat, j: nat)
    requires AllOk(cands, h) && n < |cands| && j < |cands[n].entries|
    ensures cands[n].entries[j].key <= KEY_MAX && 0 < cands[n].time
  {
    var t := cands[n];
    assert t.Ok(h);
    if j < |t.entries| - 1 { assert t.entries[j].key < t.entries[|t.entries| - 1].key; }
  }

  /** What table i holds of a key that is not beyond its cursor. */
  lemma HeldAt(cands: seq<Table>, p: seq<nat>, bound: nat, h: Hash, i: nat, k: nat)
    requires AllOk(cands, h) && At(cands, p, bound) && i < |cands| && bound <= k
    requires p[i] < |cands[i].entries| ==> k <= cands[i].entries[p[i]].key
    ensures var es := cands[i].entries;
      Lookup(es, k) == if p[i] < |es| && es[p[i]].key == k then Some(es[p[i]]) else None
  {
    assert AtOne(cands[i].entries, p[i], bound) && cands[i].Ok(h);
    HeldAtCursor(cands[i].entries, p[i], bound, k);
  }

  lemma AtBound(cands: seq<Table>, p: seq<nat>, bound: nat, i: nat)
    requires At(cands, p, bound) && i < |cands| && p[i] < |cands[i].entries|
    ensures bound <= cands[i].entries[p[i]].key
  {
    assert AtOne(cands[i].entries, p[i], bound);
  }

  lemma AtBounds(cands: seq<Table>, p: seq<nat>, bound: nat)
    requires At(cands, p, bound)
    ensures |p| == |cands|
  {
  }

  lemma NewLeader(cands: seq<Table>, p: seq<nat>, bound: nat, h: Hash, n: nat, w: int, item: Item, flag: bool)
    requires AllOk(cands, h) && At(cands, p, bound) && n < |cands| && p[n] < |cands[n].entries|
    requires if flag then Leads(cands, p, n, w, item) && cands[n].entries[p[n]].key < item.entry.key
             else forall i | 0 <= i < n :: p[i] >= |cands[i].entries|
    ensures Leads(cands, p, n + 1, n, Item(cands[n].entries[p[n]], cands[n].time))
    ensures bound <= cands[n].entries[p[n]].key
  {
    hide Lookup, At, AllOk;
    AtBounds(cands, p, bound);
    var k := cands[n].entries[p[n]].key;
    AtBound(cands, p, bound, n);
    forall i | 0 <= i < n ensures Lookup(cands[i].entries, k).None? {
      HeldAt(cands, p, bound, h, i, k);
    }
    NoWinner(cands, k, n);
    HeldAt(cands, p, bound, h, n, k);
  }

  lemma SameKey(cands: seq<Table>, p: seq<nat>, bound: nat, h: Hash, n: nat, w: int, item: Item, flag: bool)
    requires AllOk(cands, h) && At(cands, p, bound) && n < |cands| && p[n] < |cands[n].entries|
    requires flag ==> Leads(cands, p, n, w, item)
    requires !flag ==> forall i | 0 <= i < n :: p[i] >= |cands[i].entries|
    requires cands[n].entries[p[n]].key == item.entry.key && cands[n].time > item.time
    ensures Leads(cands, p, n + 1, n, Item(cands[n].entries[p[n]], cands[n].time))
    ensures bound <= cands[n].entries[p[n]].key
  {
    hide Lookup, At, AllOk;
    AtBounds(cands, p, bound);
    AtBound(cands, p, bound, n);
    if flag {
      HeldAt(cands, p, bound, h, n, item.entry.key);
    } else {
      NewLeader(cands, p, bound, h, n, w, item, false);
    }
  }

  lemma LeaderStays(cands: seq<Table>, p: seq<nat>, bound: nat, h: Hash, n: nat, w: int, item: Item)
    requires AllOk(cands, h) && At(cands, p, bound) && n < |cands| && Leads(cands, p, n, w, item)
    requires p[n] < |cands[n].entries| ==>
               item.entry.key < cands[n].entries[p[n]].key ||
               (item.entry.key == cands[n].entries[p[n]].key && cands[n].time <= item.time)
    ensures Leads(cands, p, n + 1, w, item)
  {
    hide Lookup, At, AllOk;
    AtBounds(cands, p, bound);
    AtBound(cands, p, bound, w);
    HeldAt(cands, p, bound, h, n, item.entry.key);
  }

  /** Where a cursor stands after the key. */
  function Next(es: seq<Entry>, p: nat, key: nat): nat {
    if p < |es| && es[p].key == key then p + 1 else p
  }

  lemma AdvanceAll(cands: seq<Table>, p: seq<nat>, p': seq<nat>, key: nat, bound: nat, h: Hash)
    requires AllOk(cands, h) && At(cands, p, bound) && bound <= key && |p'| == |p| == |cands|
    requires forall i | 0 <= i < |cands| && p[i] < |cands[i].entries| :: key <= cands[i].entries[p[i]].key
    requires forall i | 0 <= i < |cands| :: p'[i] == Next(cands[i].entries, p[i], key)
    ensures At(cands, p', key + 1)
  {
    forall i | 0 <= i < |p'| ensures AtOne(cands[i].entries, p'[i], key + 1) {
      var es := cands[i].entries;
      assert AtOne(es, p[i], bound) && cands[i].Ok(h);
      forall j | p[i] < j < |es| ensures es[p[i]].key < es[j].key {}
    }
  }

  lemma {:induction false} SumGrows(p: seq<nat>, p': seq<nat>)
    requires |p'| == |p| && forall i | 0 <= i < |p| :: p[i] <= p'[i]
    ensures Sum(p) <= Sum(p')
    ensures (exists i :: 0 <= i < |p| && p[i] < p'[i]) ==> Sum(p) < Sum(p')
  {
    if |p| > 0 {
      SumGrows(p[1..], p'[1..]);
      if i :| 0 <= i < |p| && p[i] < p'[i] {
        if i > 0 { assert p[1..][i - 1] < p'[1..][i - 1]; }
      }
    }
  }

  /** Every cursor that stands at the key moves on. */
  method Advance(cands: seq<Table>, p: seq<nat>, key: nat, ghost bound: nat, ghost h: Hash) returns (p': seq<nat>)
    requires AllOk(cands, h) && At(cands, p, bound) && bound <= key
    requires forall i | 0 <= i < |cands| && p[i] < |cands[i].entries| :: key <= cands[i].entries[p[i]].key
    ensures At(cands, p', key + 1) && Sum(p') >= Sum(p)
    ensures (exists i :: 0 <= i < |cands| && p[i] < |cands[i].entries| && cands[i].entries[p[i]].key == key) ==> Sum(p') > Sum(p)
  {
    hide At, AllOk, Sum;
    AtBounds(cands, p, bound);
    p' := p;
    for i := 0 to |cands|
      invariant |p'| == |p| && forall j | i <= j < |p| :: p'[j] == p[j]
      invariant forall j | 0 <= j < i :: p'[j] == Next(cands[j].entries, p[j], key)
    {
      if p[i] < |cands[i].entries| && cands[i].entries[p[i]].key == key {
        p' := p'[i := p'[i] + 1];
      }
    }
    AdvanceAll(cands, p, p', key, bound, h);
    SumGrows(p, p');
  }

  lemma NothingLeft(cands: seq<Table>, p: seq<nat>, bound: nat, k: nat)
    requires At(cands, p, bound) && (forall i | 0 <= i < |cands| :: p[i] >= |cands[i].entries|) && bound <= k
    ensures Won(cands, k).None?
  {
    forall i | 0 <= i < |cands| ensures Lookup(cands[i].entries, k).None? {
      assert AtOne(cands[i].entries, p[i], bound);
    }
    NoWinner(cands, k, |cands|);
  }

  lemma NothingBetween(cands: seq<Table>, p: seq<nat>, bound: nat, h: Hash, key: nat, k: nat)
    requires AllOk(cands, h) && At(cands, p, bound) && bound <= k < key
    requires forall i | 0 <= i < |cands| && p[i] < |cands[i].entries| :: key <= cands[i].entries[p[i]].key
    ensures Won(cands, k).None?
  {
    forall i | 0 <= i < |cands| ensures Lookup(cands[i].entries, k).None? {
      assert AtOne(cands[i].entries, p[i], bound);
      HeldAtCursor(cands[i].entries, p[i], bound, k);
    }
    NoWinner(cands, k, |cands|);
  }

  // ---------- The output tables ----------

  function EntriesOf(items: seq<Item>): (es: seq<Entry>)
    ensures |es| == |items| && forall i | 0 <= i < |es| :: es[i] == items[i].entry
  {
    seq(|items|, i requires 0 <= i < |items| => items[i].entry)
  }

  function MaxTime(items: seq<Item>): (t: nat)
    ensures forall i | 0 <= i < |items| :: items[i].time <= t
    ensures |items| > 0 ==> exists i :: 0 <= i < |items| && items[i].time == t
  {
    if |items| == 0 then 0
    else
      var rest, last := items[..|items| - 1], items[|items| - 1];
      var t := MaxTime(rest);
      assert forall i | 0 <= i < |rest| :: items[i] == rest[i];
      assert |rest| > 0 ==> exists i :: 0 <= i < |items| && items[i].time == t by {
        if |rest| > 0 {
          var i :| 0 <= i < |rest| && rest[i].time == t;
          assert items[i].time == t;
        }
      }
      if t > last.time then t else last.time
  }

  function GroupSize(items: seq<Item>): (n: nat)
    ensures n <= |items| && (|items| > 0 ==> n > 0)
  {
    if |items| < MAX_NUM then |items| else MAX_NUM
  }

  /** One table per group of MAX_NUM items, stamped with the newest time among its items. */
  ghost predicate Formed(tables: seq<Table>, items: seq<Item>, h: Hash)
    decreases |items|
  {
    if |items| == 0 then tables == []
    else
      var n := GroupSize(items);
      && |tables| > 0 && IsTableOf(tables[0], items[..n], h)
      && Formed(tables[1..], items[n..], h)
  }

  ghost predicate IsTableOf(t: Table, items: seq<Item>, h: Hash) {
    t.Ok(h) && t.entries == EntriesOf(items) && t.time == MaxTime(items) && IsBuilt(t, h)
  }

  lemma FormedSome(tables: seq<Table>, items: seq<Item>, h: Hash)
    requires Formed(tables, items, h) && |items| > 0
    ensures |tables| > 0
  {
    hide IsTableOf;
  }

  lemma FormedStep(tables: seq<Table>, items: seq<Item>, h: Hash)
    requires Formed(tables, items, h) && |tables| > 0
    ensures |items| > 0
    ensures IsTableOf(tables[0], items[..GroupSize(items)], h) && Formed(tables[1..], items[GroupSize(items)..], h)
  {
    hide IsTableOf;
  }

  lemma FormedParts(tables: seq<Table>, items: seq<Item>, h: Hash)
    requires |items| >= MAX_NUM
    ensures Formed(tables, items, h) <==>
            |tables| > 0 && IsTableOf(tables[0], items[..MAX_NUM], h) && Formed(tables[1..], items[MAX_NUM..], h)
  {
  }

  lemma FormedOne(t: Table, group: seq<Item>, h: Hash)
    requires 0 < |group| <= MAX_NUM && IsTableOf(t, group, h)
    ensures Formed([t], group, h)
  {
    hide IsBuilt, Table.Ok;
    assert group[..|group|] == group && group[|group|..] == [] && [t][1..] == [];
    assert Formed([], [], h);
  }

  lemma FormedNone(tables: seq<Table>, h: Hash)
    ensures Formed(tables, [], h) <==> tables == []
  {
  }

  lemma {:induction false} FormedSnoc(tables: seq<Table>, items: seq<Item>, h: Hash, t: Table, group: seq<Item>)
    requires Formed(tables, items, h) && |items| % MAX_NUM == 0
    requires 0 < |group| <= MAX_NUM && IsTableOf(t, group, h)
    ensures Formed(tables + [t], items + group, h)
    decreases |items|
  {
    hide Formed, IsTableOf;
    if |items| == 0 {
      FormedNone(tables, h);
      FormedOne(t, group, h);
      assert items + group == group && tables + [t] == [t];
    } else {
      FormedParts(tables, items, h);
      FormedSnoc(tables[1..], items[MAX_NUM..], h, t, group);
      assert (items + group)[..MAX_NUM] == items[..MAX_NUM];
      assert (items + group)[MAX_NUM..] == items[MAX_NUM..] + group;
      assert (tables + [t])[1..] == tables[1..] + [t];
      FormedParts(tables + [t], items + group, h);
    }
  }

  // ---------- How many tables come out ----------

  function Sum(p: seq<nat>): nat {
    if |p| == 0 then 0 else p[0] + Sum(p[1..])
  }

  lemma {:induction false} SumBound(p: seq<nat>, most: nat)
    requires forall i | 0 <= i < |p| :: p[i] <= most
    ensures Sum(p) <= |p| * most
  {
    if |p| > 0 {
      SumBound(p[1..], most);
      assert |p| * most == most + |p[1..]| * most;
    }
  }

  lemma {:induction false} FormedCount(tables: seq<Table>, items: seq<Item>, h: Hash, n: nat)
    requires Formed(tables, items, h) && |items| <= MAX_NUM * n
    ensures |tables| <= n && forall t | t in tables :: |t.entries| <= MAX_NUM
    decreases |items|
  {
    hide Formed, Table.Ok, MaxTime, IsBuilt;
    if |items| > 0 {
      FormedSome(tables, items, h);
      FormedStep(tables, items, h);
      assert n > 0;
      FormedCount(tables[1..], items[GroupSize(items)..], h, n - 1);
      assert tables == [tables[0]] + tables[1..];
    } else {
      FormedNone(tables, h);
    }
  }

  // ---------- The merge loop ----------

  lemma OneMoreItem(cands: seq<Table>, drop: bool, items: seq<Item>, p: seq<nat>, bound: nat, h: Hash, item: Item)
    requires AllOk(cands, h) && At(cands, p, bound) && |p| == |cands| && Merged(cands, drop, items, bound)
    requires bound <= item.entry.key && Won(cands, item.entry.key) == Some(item)
    requires forall i | 0 <= i < |cands| && p[i] < |cands[i].entries| :: item.entry.key <= cands[i].entries[p[i]].key
    ensures var items' := if drop && item.entry.len == 0 then items else items + [item];
      Merged(cands, drop, items', item.entry.key + 1)
  {
    hide Won, At, AllOk;
    var key := item.entry.key;
    var items' := if drop && item.entry.len == 0 then items else items + [item];
    forall k: nat | k < key + 1 && Kept(cands, drop, k).Some? ensures HasItem(items', k) {
      if k < bound {
        assert HasItem(items, k);
        var i :| 0 <= i < |items| && items[i].entry.key == k;
        assert items'[i] == items[i];
      } else if k < key {
        NothingBetween(cands, p, bound, h, key, k);
      } else {
        assert items'[|items|].entry.key == k;
      }
    }
  }

  lemma MergeEnds(cands: seq<Table>, drop: bool, items: seq<Item>, p: seq<nat>, bound: nat)
    requires At(cands, p, bound) && |p| == |cands| && Merged(cands, drop, items, bound) && bound <= KEY_MAX + 1
    requires forall i | 0 <= i < |cands| :: p[i] >= |cands[i].entries|
    ensures Merged(cands, drop, items, KEY_MAX + 1)
  {
    hide Won;
    forall k: nat | k < KEY_MAX + 1 && Kept(cands, drop, k).Some? ensures HasItem(items, k) {
      if k >= bound { NothingLeft(cands, p, bound, k); }
    }
  }

  /** Entries collected for the table that is being filled. */
  ghost predicate Filling(tables: seq<Table>, items: seq<Item>, pending: seq<Entry>, totTime: nat, h: Hash) {
    && |pending| <= |items| && (|items| - |pending|) % MAX_NUM == 0
    && Formed(tables, items[..|items| - |pending|], h)
    && pending == EntriesOf(items[|items| - |pending|..])
    && totTime == MaxTime(items[|items| - |pending|..])
  }

  lemma FillMore(tables: seq<Table>, items: seq<Item>, pending: seq<Entry>, totTime: nat, h: Hash, item: Item)
    requires Filling(tables, items, pending, totTime, h)
    ensures Filling(tables, items + [item], pending + [item.entry], if totTime > item.time then totTime else item.time, h)
  {
    hide Formed;
    var n := |items| - |pending|;
    assert (items + [item])[..n] == items[..n];
    assert (items + [item])[n..] == items[n..] + [item];
    assert (items[n..] + [item])[..|pending|] == items[n..];
  }

  lemma FillDone(tables: seq<Table>, items: seq<Item>, pending: seq<Entry>, totTime: nat, h: Hash, t: Table)
    requires Filling(tables, items, pending, totTime, h) && 0 < |pending| <= MAX_NUM
    requires t.Ok(h) && t.entries == pending && t.time == totTime && IsBuilt(t, h)
    ensures Formed(tables + [t], items, h)
    ensures |pending| == MAX_NUM ==> Filling(tables + [t], items, [], 0, h)
  {
    hide *;
    FillParts(tables, items, pending, totTime, h, t);
    var n := |items| - |pending|;
    FormedSnoc(tables, items[..n], h, t, items[n..]);
    assert items[..n] + items[n..] == items;
    if |pending| == MAX_NUM {
      NextGroup(n);
      FillEmpty(tables + [t], items, h);
    }
  }

  lemma FillParts(tables: seq<Table>, items: seq<Item>, pending: seq<Entry>, totTime: nat, h: Hash, t: Table)
    requires Filling(tables, items, pending, totTime, h)
    requires t.Ok(h) && t.entries == pending && t.time == totTime && IsBuilt(t, h)
    ensures |pending| <= |items|
    ensures var n := |items| - |pending|;
      n % MAX_NUM == 0 && Formed(tables, items[..n], h) && IsTableOf(t, items[n..], h)
  {
    hide Formed, Table.Ok, MaxTime, IsBuilt;
  }

  lemma NextGroup(n: nat)
    requires n % MAX_NUM == 0
    ensures (n + MAX_NUM) % MAX_NUM == 0
  {
  }

  lemma FillEmpty(tables: seq<Table>, items: seq<Item>, h: Hash)
    requires Formed(tables, items, h) && |items| % MAX_NUM == 0
    ensures Filling(tables, items, [], 0, h)
  {
    hide Formed;
    assert items[..|items|] == items && items[|items|..] == [];
  }

  lemma PendingOk(cands: seq<Table>, drop: bool, tables: seq<Table>, items: seq<Item>, pending: seq<Entry>, totTime: nat,
                  bound: nat, h: Hash)
    requires AllOk(cands, h) && Merged(cands, drop, items, bound) && bound <= KEY_MAX + 1
    requires Filling(tables, items, pending, totTime, h) && |pending| > 0
    ensures Sorted(pending) && pending[|pending| - 1].key <= KEY_MAX && 0 < totTime
  {
    hide Formed, Kept;
    var n := |items| - |pending|;
    assert forall i | 0 <= i < |pending| :: pending[i] == items[n + i].entry;
    ItemTimes(cands, drop, items, bound, h, n);
    assert items[n..][0].time == items[n].time <= totTime;
  }

  lemma ItemTimes(cands: seq<Table>, drop: bool, items: seq<Item>, bound: nat, h: Hash, i: nat)
    requires AllOk(cands, h) && Merged(cands, drop, items, bound) && i < |items|
    ensures 0 < items[i].time && exists c :: 0 <= c < |cands| && cands[c].time == items[i].time
  {
    var w := Winner(cands, items[i].entry.key, |cands|);
    assert Kept(cands, drop, items[i].entry.key) == Some(items[i]);
    assert cands[w].Ok(h);
  }

  lemma StartMerge(cands: seq<Table>, drop: bool, p: seq<nat>, h: Hash)
    requires |p| == |cands| && forall i | 0 <= i < |p| :: p[i] == 0
    ensures At(cands, p, 0) && Merged(cands, drop, [], 0) && Filling([], [], [], 0, h)
  {
    FormedNone([], h);
  }

  /** compaction's loop: merge all candidates and write a table whenever MAX_NUM entries are collected. */
  method Merge(cands: seq<Table>, drop: bool, h: Hash) returns (tables: seq<Table>, ghost items: seq<Item>)
    requires AllOk(cands, h)
    ensures Merged(cands, drop, items, KEY_MAX + 1) && Formed(tables, items, h)
    ensures (forall c | c in cands :: |c.entries| <= MAX_NUM) ==>
              |tables| <= |cands| && forall t | t in tables :: |t.entries| <= MAX_NUM
  {
    hide Sum;
    hide At, AllOk, Merged, Filling, Formed, Won, Kept, Table.Ok, Sorted, IsBuilt;
    var p: seq<nat> := seq(|cands|, _ => 0);
    tables, items := [], [];
    var offsetList: seq<Entry>, totTime: nat := [], 0;
    ghost var bound: nat := 0;
    StartMerge(cands, drop, p, h);
    while true
      invariant At(cands, p, bound) && bound <= KEY_MAX + 1 && |p| == |cands|
      invariant Merged(cands, drop, items, bound) && |items| <= Sum(p)
      invariant Filling(tables, items, offsetList, totTime, h) && |offsetList| < MAX_NUM
      decreases KEY_MAX + 1 - bound
    {
      var flag, newKV := PickMin(cands, p, bound, h);
      if !flag {
        break;
      }
      OneMoreItem(cands, drop, items, p, bound, h, newKV);
      if drop && newKV.entry.len == 0 {
      } else {
        FillMore(tables, items, offsetList, totTime, h, newKV);
        offsetList := offsetList + [newKV.entry];
        totTime := if totTime > newKV.time then totTime else newKV.time;
        items := items + [newKV];
      }
      p := Advance(cands, p, newKV.entry.key, bound, h);
      bound := newKV.entry.key + 1;
      AtBounds(cands, p, bound);
      if |offsetList| == MAX_NUM {
        PendingOk(cands, drop, tables, items, offsetList, totTime, bound, h);
        var t := FormTable(offsetList, totTime, h);
        FillDone(tables, items, offsetList, totTime, h, t);
        tables := tables + [t];
        offsetList, totTime := [], 0;
      }
    }
    if |offsetList| > 0 {
      PendingOk(cands, drop, tables, items, offsetList, totTime, bound, h);
      var t := FormTable(offsetList, totTime, h);
      FillDone(tables, items, offsetList, totTime, h, t);
      tables := tables + [t];
    } else {
      NothingPending(tables, items, totTime, h);
    }
    MergeEnds(cands, drop, items, p, bound);
    if forall c | c in cands :: |c.entries| <= MAX_NUM {
      OutputCount(cands, p, bound, items, tables, h);
    }
  }

  lemma OutputCount(cands: seq<Table>, p: seq<nat>, bound: nat, items: seq<Item>, tables: seq<Table>, h: Hash)
    requires At(cands, p, bound) && |items| <= Sum(p) && Formed(tables, items, h)
    requires forall c | c in cands :: |c.entries| <= MAX_NUM
    ensures |tables| <= |cands| && forall t | t in tables :: |t.entries| <= MAX_NUM
  {
    forall i | 0 <= i < |p| ensures p[i] <= MAX_NUM {
      assert cands[i] in cands && AtOne(cands[i].entries, p[i], bound);
    }
    SumBound(p, MAX_NUM);
    FormedCount(tables, items, h, |cands|);
  }

  lemma NothingPending(tables: seq<Table>, items: seq<Item>, totTime: nat, h: Hash)
    requires Filling(tables, items, [], totTime, h)
    ensures Formed(tables, items, h)
  {
    assert items[..|items|] == items;
  }
}

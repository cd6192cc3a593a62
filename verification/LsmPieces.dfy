/**
  Merging tables that have no key in common: the items are those of all tables, in key order.
 */
module LsmPieces {
  import opened LsmTable
  import opened Options
  import opened LsmMerge
  import opened LsmLevels

  // ---------- Entries in a key range ----------

  /** Entries with values, in key order, between lo and hi. */
  ghost predicate InRange(es: seq<Entry>, lo: nat, hi: nat) {
    && Sorted(es) && hi <= KEY_MAX
    && forall i | 0 <= i < |es| :: lo <= es[i].key <= hi && es[i].len > 0
  }

  lemma RangesJoin(a: seq<Entry>, b: seq<Entry>, lo: nat, m: nat, n: nat, hi: nat)
    requires InRange(a, lo, m) && InRange(b, n, hi) && m < n && lo <= n && m <= hi
    ensures InRange(a + b, lo, hi)
  {
  }

  // ---------- Items ----------

  /** The entries as items of a table with this time. */
  function Tag(es: seq<Entry>, time: nat): (items: seq<Item>)
    ensures |items| == |es| && forall i | 0 <= i < |items| :: items[i] == Item(es[i], time)
  {
    seq(|es|, i requires 0 <= i < |es| => Item(es[i], time))
  }

  lemma EntriesOfTag(es: seq<Entry>, time: nat)
    ensures EntriesOf(Tag(es, time)) == es
  {
  }

  lemma EntriesJoin(a: seq<Item>, b: seq<Item>)
    ensures EntriesOf(a + b) == EntriesOf(a) + EntriesOf(b)
  {
  }

  lemma {:induction false} MaxTimeIs(items: seq<Item>, time: nat)
    requires (forall i | 0 <= i < |items| :: items[i].time <= time) && exists i :: 0 <= i < |items| && items[i].time == time
    ensures MaxTime(items) == time
  {
    var i :| 0 <= i < |items| && items[i].time == time;
    assert items[i].time <= MaxTime(items);
  }

  /** All items of the tables, one table after the other. */
  function AllItems(cands: seq<Table>): seq<Item> {
    if cands == [] then [] else Tag(cands[0].entries, cands[0].time) + AllItems(cands[1..])
  }

  lemma {:induction false} AllItemsAre(cands: seq<Table>, x: Item)
    ensures x in AllItems(cands) <==> exists j :: 0 <= j < |cands| && x.entry in cands[j].entries && x.time == cands[j].time
  {
    if cands != [] {
      AllItemsAre(cands[1..], x);
      TagHas(cands[0].entries, cands[0].time, x);
      if j :| 0 <= j < |cands| && x.entry in cands[j].entries && x.time == cands[j].time {
        if j > 0 { assert cands[1..][j - 1] == cands[j]; }
      }
      if j :| 0 <= j < |cands[1..]| && x.entry in cands[1..][j].entries && x.time == cands[1..][j].time {
        assert cands[1..][j] == cands[j + 1];
      }
    }
  }

  lemma TagHas(es: seq<Entry>, time: nat, x: Item)
    ensures x in Tag(es, time) <==> x.entry in es && x.time == time
  {
    if x.entry in es && x.time == time {
      var i :| 0 <= i < |es| && es[i] == x.entry;
      assert Tag(es, time)[i] == x;
    }
  }

  /** items are all the items of the tables, in key order. */
  ghost predicate Sorts(items: seq<Item>, cands: seq<Table>) {
    && Ascending(items) && (forall i | 0 <= i < |items| :: items[i].entry.key <= KEY_MAX && items[i].entry.len > 0)
    && forall x :: x in items <==> x in AllItems(cands)
  }

  lemma KeyOnce(items: seq<Item>, x: Item, y: Item)
    requires Ascending(items) && x in items && y in items && x.entry.key == y.entry.key
    ensures x == y
  {
  }

  lemma WonIs(items: seq<Item>, cands: seq<Table>, x: Item)
    requires Sorts(items, cands) && x in items
    ensures Won(cands, x.entry.key) == Some(x)
  {
    var k := x.entry.key;
    AllItemsAre(cands, x);
    var j :| 0 <= j < |cands| && x.entry in cands[j].entries && x.time == cands[j].time;
    assert Lookup(cands[j].entries, k).Some? by {
      var i :| 0 <= i < |cands[j].entries| && cands[j].entries[i] == x.entry;
    }
    WinnerIsNewest(cands, k, |cands|);
    var w := Winner(cands, k, |cands|);
    var e := Lookup(cands[w].entries, k).value;
    var y := Item(e, cands[w].time);
    AllItemsAre(cands, y);
    hide AllItems;
    assert y in AllItems(cands);
    KeyOnce(items, x, y);
  }

  /** The merge of tables with different keys. */
  lemma SortsIsMerged(items: seq<Item>, cands: seq<Table>, drop: bool)
    requires Sorts(items, cands)
    ensures Merged(cands, drop, items, KEY_MAX + 1)
  {
    hide Won, AllItems, Sorts;
    SortsFacts(items, cands);
    forall i | 0 <= i < |items| ensures Kept(cands, drop, items[i].entry.key) == Some(items[i]) {
      assert items[i] in items;
      WonIs(items, cands, items[i]);
    }
    forall k: nat | k < KEY_MAX + 1 && Kept(cands, drop, k).Some? ensures HasItem(items, k) {
      var x := Won(cands, k).value;
      WonIsItem(cands, k);
      assert x in items by { SortsHas(items, cands, x); }
      var i :| 0 <= i < |items| && items[i] == x;
      assert items[i].entry.key == k;
    }
  }

  lemma SortsFacts(items: seq<Item>, cands: seq<Table>)
    requires Sorts(items, cands)
    ensures Ascending(items) && forall i | 0 <= i < |items| :: items[i].entry.key <= KEY_MAX && items[i].entry.len > 0
  {
  }

  lemma SortsHas(items: seq<Item>, cands: seq<Table>, x: Item)
    requires Sorts(items, cands)
    ensures x in items <==> x in AllItems(cands)
  {
  }

  lemma WonIsItem(cands: seq<Table>, k: nat)
    requires Won(cands, k).Some?
    ensures Won(cands, k).value in AllItems(cands)
  {
    AllItemsAre(cands, Won(cands, k).value);
    hide AllItems;
  }

  // ---------- Tables of items ----------

  /** The table that is written for a group of items. */
  lemma GroupIsTable(g: seq<Item>, es: seq<Entry>, time: nat, lo: nat, hi: nat, h: Hash)
    requires g != [] && EntriesOf(g) == es && InRange(es, lo, hi) && 0 < time
    requires (forall i | 0 <= i < |g| :: g[i].time <= time) && exists i :: 0 <= i < |g| && g[i].time == time
    ensures IsTableOf(Built(es, time, h), g, h)
  {
    hide FilterOf, Table.Ok;
    MaxTimeIs(g, time);
    BuiltIsOk(es, time, h);
  }

  lemma FormedMore(t: Table, ts: seq<Table>, g: seq<Item>, rest: seq<Item>, h: Hash)
    requires |g| == MAX_NUM && IsTableOf(t, g, h) && Formed(ts, rest, h)
    ensures Formed([t] + ts, g + rest, h)
  {
    hide IsTableOf, Formed;
    assert (g + rest)[..MAX_NUM] == g && (g + rest)[MAX_NUM..] == rest && ([t] + ts)[1..] == ts;
    FormedParts([t] + ts, g + rest, h);
  }

  // ---------- Items in parts ----------

  /** Consecutive items of one table, with keys between lo and hi. */
  datatype Part = Part(es: seq<Entry>, time: nat, lo: nat, hi: nat)

  function Entries(ps: seq<Part>): seq<Entry> {
    if ps == [] then [] else ps[0].es + Entries(ps[1..])
  }

  function Items(ps: seq<Part>): seq<Item> {
    if ps == [] then [] else Tag(ps[0].es, ps[0].time) + Items(ps[1..])
  }

  ghost predicate PartsOk(ps: seq<Part>) {
    && (forall i | 0 <= i < |ps| :: ps[i].es != [] && ps[i].lo <= ps[i].hi && InRange(ps[i].es, ps[i].lo, ps[i].hi))
    && forall i, j | 0 <= i < j < |ps| :: ps[i].hi < ps[j].lo
  }

  lemma {:induction false} EntriesOfItems(ps: seq<Part>)
    ensures EntriesOf(Items(ps)) == Entries(ps)
  {
    if ps != [] {
      EntriesOfItems(ps[1..]);
      EntriesOfTag(ps[0].es, ps[0].time);
      EntriesJoin(Tag(ps[0].es, ps[0].time), Items(ps[1..]));
    }
  }

  lemma ItemsSize(ps: seq<Part>)
    ensures |Items(ps)| == |Entries(ps)|
  {
    hide Items, Entries;
    EntriesOfItems(ps);
  }

  lemma OneEntries(p: Part)
    ensures Entries([p]) == p.es && |Items([p])| == |p.es|
  {
    assert [p][1..] == [] && p.es + [] == p.es;
    assert Entries([p]) == p.es + Entries([]);
    ItemsSize([p]);
  }

  lemma TwoEntries(p: Part, q: Part)
    ensures Entries([p, q]) == p.es + q.es && |Items([p, q])| == |p.es| + |q.es|
  {
    OneEntries(q);
    assert [p, q][1..] == [q];
    ItemsSize([p, q]);
  }

  lemma {:induction false} PartsJoin(a: seq<Part>, b: seq<Part>)
    requires PartsOk(a) && PartsOk(b) && (a != [] && b != [] ==> a[|a| - 1].hi < b[0].lo)
    ensures PartsOk(a + b)
  {
    forall i, j | 0 <= i < |a| && 0 <= j < |b| ensures a[i].hi < b[j].lo {
      assert a[i].hi <= a[|a| - 1].hi < b[0].lo <= b[j].lo by { PartsAscend(a, i, |a| - 1); PartsAscend(b, 0, j); }
    }
    hide InRange;
  }

  lemma PartsAscend(ps: seq<Part>, i: nat, j: nat)
    requires PartsOk(ps) && i <= j < |ps|
    ensures ps[i].hi <= ps[j].hi && ps[i].lo <= ps[j].lo
  {
    hide InRange;
  }

  lemma {:induction false} PartsInRange(ps: seq<Part>)
    requires PartsOk(ps) && ps != []
    ensures InRange(Entries(ps), ps[0].lo, ps[|ps| - 1].hi) && Entries(ps) != []
    ensures Entries(ps)[0] == ps[0].es[0] && Entries(ps)[|Entries(ps)| - 1] == ps[|ps| - 1].es[|ps[|ps| - 1].es| - 1]
  {
    var rest := ps[1..];
    if rest != [] {
      assert rest[|rest| - 1] == ps[|ps| - 1];
      PartsInRange(rest);
      RangesJoin(ps[0].es, Entries(rest), ps[0].lo, ps[0].hi, rest[0].lo, ps[|ps| - 1].hi);
    } else {
      assert Entries(ps) == ps[0].es;
    }
  }

  lemma {:induction false} ItemsHave(ps: seq<Part>, x: Item)
    ensures x in Items(ps) <==> exists i :: 0 <= i < |ps| && x.entry in ps[i].es && x.time == ps[i].time
  {
    if ps != [] {
      ItemsHave(ps[1..], x);
      TagHas(ps[0].es, ps[0].time, x);
      if i :| 0 <= i < |ps| && x.entry in ps[i].es && x.time == ps[i].time {
        if i > 0 { assert ps[1..][i - 1] == ps[i]; }
      }
      if i :| 0 <= i < |ps[1..]| && x.entry in ps[1..][i].es && x.time == ps[1..][i].time {
        assert ps[1..][i] == ps[i + 1];
      }
    }
  }

  lemma {:induction false} ItemsJoin(a: seq<Part>, b: seq<Part>)
    ensures Items(a + b) == Items(a) + Items(b)
  {
    if a == [] {
      assert a + b == b;
    } else {
      assert (a + b)[1..] == a[1..] + b;
      ItemsJoin(a[1..], b);
    }
  }

  /** The tables fall into the parts. */
  ghost predicate Fills(ps: seq<Part>, cands: seq<Table>) {
    && (forall i, e | 0 <= i < |ps| && e in ps[i].es ::
          exists j :: 0 <= j < |cands| && e in cands[j].entries && cands[j].time == ps[i].time)
    && (forall j, e | 0 <= j < |cands| && e in cands[j].entries ::
          exists i :: 0 <= i < |ps| && e in ps[i].es && ps[i].time == cands[j].time)
  }

  lemma {:induction false} PartsAreSorted(ps: seq<Part>, cands: seq<Table>)
    requires PartsOk(ps) && ps != [] && Fills(ps, cands)
    ensures Sorts(Items(ps), cands)
  {
    var items := Items(ps);
    EntriesOfItems(ps);
    PartsInRange(ps);
    assert forall i | 0 <= i < |items| :: items[i].entry == Entries(ps)[i];
    hide Items, Entries, AllItems;
    forall x ensures x in items <==> x in AllItems(cands) {
      ItemsHave(ps, x);
      AllItemsAre(cands, x);
    }
  }

  lemma {:induction false} PartsAreTable(ps: seq<Part>, time: nat, i: nat, h: Hash)
    requires PartsOk(ps) && 0 < time && i < |ps| && ps[i].time == time && forall j | 0 <= j < |ps| :: ps[j].time <= time
    ensures IsTableOf(Built(Entries(ps), time, h), Items(ps), h)
  {
    hide IsTableOf, Built;
    EntriesOfItems(ps);
    PartsInRange(ps);
    forall x | 0 <= x < |Items(ps)| ensures Items(ps)[x].time <= time {
      assert Items(ps)[x] in Items(ps);
      ItemsHave(ps, Items(ps)[x]);
    }
    var y := Item(ps[i].es[0], time);
    ItemsHave(ps, y);
    var x :| 0 <= x < |Items(ps)| && Items(ps)[x] == y;
    assert Items(ps)[x].time == time;
    GroupIsTable(Items(ps), Entries(ps), time, ps[0].lo, ps[|ps| - 1].hi, h);
  }
}

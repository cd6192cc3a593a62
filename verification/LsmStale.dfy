/**
  A run of twenty-seven saves after which a lookup is stale.  The numbers are those of the files:
  every flush and every table that a compaction writes takes the next one, and a flushed table has
  its own number as its time.
 */
module LsmStale {
  import opened LsmTable
  import opened Options
  import opened LsmMerge
  import opened LsmLevels
  import opened LsmRuns
  import opened LsmPieces
  import opened LsmSteps

  /** The offset at which flush t put the value of key k into the value log. */
  type Offsets = (nat, nat) -> nat

  /** The entry of key k in flush t. */
  function E(off: Offsets, k: nat, t: nat): Entry { Entry(k, off(k, t), 1) }

  /** The key whose lookup becomes stale. */
  const K: nat := 418

  // ---------- Entries ----------

  /** n consecutive keys from lo on, all of flush t. */
  function Block(off: Offsets, lo: nat, n: nat, t: nat): (es: seq<Entry>)
    ensures |es| == n && forall i | 0 <= i < n :: es[i] == E(off, lo + i, t)
  {
    seq(n, i requires 0 <= i < n => E(off, lo + i, t))
  }

  lemma BlockIs(off: Offsets, lo: nat, n: nat, t: nat)
    requires 0 < n && lo + n <= KEY_MAX
    ensures var es := Block(off, lo, n, t); InRange(es, lo, lo + n - 1) && es[0].key == lo && es[n - 1].key == lo + n - 1
    ensures n <= MAX_NUM ==> IsMemtable(Block(off, lo, n, t))
  {
    hide Block;
  }

  /** Three keys of three flushes. */
  function Three(off: Offsets, k: nat, t: nat): seq<Entry> { [E(off, k, t), E(off, k + 1, t + 1), E(off, k + 2, t + 2)] }

  function First(off: Offsets): seq<Entry> { [E(off, 0, 1), E(off, 1, 2), E(off, K, 3)] }

  lemma ThreeIs(off: Offsets, k: nat, t: nat)
    requires k + 2 <= KEY_MAX
    ensures InRange(Three(off, k, t), k, k + 2)
  {
  }

  lemma FirstIs(off: Offsets)
    ensures InRange(First(off), 0, K)
  {
  }

  // ---------- The first five rounds: one table with K and four others fill level 1 ----------

  ghost function G(off: Offsets, h: Hash): File { FileOf(1, 4, 3, First(off), h) }

  ghost function F(off: Offsets, h: Hash, j: nat): File {
    FileOf(1, 4 * j + 4, 4 * j + 3, Three(off, 10000 * j, 4 * j + 1), h)
  }

  ghost function Fs(off: Offsets, h: Hash, j: nat): (fs: seq<File>)
    ensures |fs| == j && forall i | 0 <= i < j :: fs[i] == F(off, h, i + 1)
  {
    seq(j, i requires 0 <= i < j => F(off, h, i + 1))
  }

  lemma GIs(off: Offsets, h: Hash)
    ensures Is(G(off, h), 1, 4, 3, 0, K, h) && G(off, h).table.entries == First(off)
  {
    hide FileOf, Is, InRange;
    FirstIs(off);
    FileOfIs(1, 4, 3, First(off), h, 0, K);
  }

  lemma FIs(off: Offsets, h: Hash, j: nat)
    requires j <= 4
    ensures Is(F(off, h, j), 1, 4 * j + 4, 4 * j + 3, 10000 * j, 10000 * j + 2, h)
    ensures F(off, h, j).table.entries == Three(off, 10000 * j, 4 * j + 1)
  {
    hide FileOf, Is, InRange;
    ThreeIs(off, 10000 * j, 4 * j + 1);
    FileOfIs(1, 4 * j + 4, 4 * j + 3, Three(off, 10000 * j, 4 * j + 1), h, 10000 * j, 10000 * j + 2);
  }

  lemma FilledFree(off: Offsets, h: Hash, j: nat)
    requires 0 < j <= 4
    ensures Free([G(off, h)] + Fs(off, h, j - 1), 10000 * j, 10000 * j + 2)
  {
    hide G, F, Fs, Table.Ok;
    GIs(off, h);
    forall i: nat | 0 < i < j ensures Is(F(off, h, i), 1, 4 * i + 4, 4 * i + 3, 10000 * i, 10000 * i + 2, h) {
      FIs(off, h, i);
    }
  }

  lemma {:induction false} Filled(off: Offsets, h: Hash, j: nat)
    requires j <= 4
    ensures Reachable(Db([G(off, h)] + Fs(off, h, j), 4 * j + 4, 1), h) && Counts([G(off, h)] + Fs(off, h, j), j + 1, 0)
  {
    hide Reachable, Counts, FileOf, Free;
    if j == 0 {
      EmptyIsReachable(h);
      NothingCounts();
      FreeOfNothing(0, K);
      Triple(EMPTY, 0, 0, E(off, 0, 1), E(off, 1, 2), E(off, K, 3), h);
      assert [] + [G(off, h)] == [G(off, h)] + Fs(off, h, 0);
    } else {
      Filled(off, h, j - 1);
      FilledFree(off, h, j);
      var d := Db([G(off, h)] + Fs(off, h, j - 1), 4 * j, 1);
      Triple(d, j, 0, E(off, 10000 * j, 4 * j + 1), E(off, 10000 * j + 1, 4 * j + 2), E(off, 10000 * j + 2, 4 * j + 3), h);
      assert d.files + [F(off, h, j)] == [G(off, h)] + Fs(off, h, j);
    }
  }

  lemma FreeOfNothing(lo: nat, hi: nat)
    ensures Free([], lo, hi)
  {
  }

  /** What is left of a list whose first part goes. */
  lemma RemainingBack(a: seq<File>, b: seq<File>, gone: seq<File>)
    requires (forall f | f in a :: f in gone) && forall f | f in b :: f !in gone
    ensures Remaining(a + b, gone) == b
  {
    hide Remaining;
    RemainingAppend(a, b, gone);
    RemainingNone(a, gone);
    RemainingAll(b, gone);
  }

  // ---------- The table with K moves to level 2 ----------

  ghost function G2(off: Offsets, h: Hash): File { FileOf(2, 21, 3, First(off), h) }

  lemma G2Is(off: Offsets, h: Hash)
    ensures Is(G2(off, h), 2, 21, 3, 0, K, h) && G2(off, h).table.entries == First(off)
  {
    hide FileOf, Is, InRange;
    FirstIs(off);
    FileOfIs(2, 21, 3, First(off), h, 0, K);
  }

  lemma OneFills(p: Part, t: Table)
    requires t.entries == p.es && t.time == p.time
    ensures Fills([p], [t])
  {
    assert [p][0] == p && [t][0] == t;
  }

  /** One table that moves as it is. */
  lemma OnePart(es: seq<Entry>, time: nat, lo: nat, hi: nat, t: Table, h: Hash)
    requires InRange(es, lo, hi) && 0 < |es| <= MAX_NUM && lo <= hi && 0 < time && t.entries == es && t.time == time
    ensures Sorts(Items([Part(es, time, lo, hi)]), [t]) && Formed([Built(es, time, h)], Items([Part(es, time, lo, hi)]), h)
  {
    var ps := [Part(es, time, lo, hi)];
    hide Sorts, Formed, IsTableOf, Built, InRange;
    hide Items, Entries;
    OneEntries(ps[0]);
    OneFills(ps[0], t);
    PartsAreSorted(ps, [t]);
    PartsAreTable(ps, time, 0, h);
    FormedOne(Built(es, time, h), Items(ps), h);
  }

  lemma GIsOldest(off: Offsets, h: Hash)
    ensures var files := [G(off, h)] + Fs(off, h, 4);
      && (forall f | f in files && f.level == 1 && |f.table.entries| > 0 :: Older(G(off, h), f))
      && Meets(files, 1, [], 0, K) && Remaining(files, [G(off, h)]) == Fs(off, h, 4)
  {
    hide G, F, Fs, Remaining, Table.Ok;
    GIs(off, h);
    forall i: nat | 0 < i <= 4 ensures Is(F(off, h, i), 1, 4 * i + 4, 4 * i + 3, 10000 * i, 10000 * i + 2, h) {
      FIs(off, h, i);
    }
    RemainingBack([G(off, h)], Fs(off, h, 4), [G(off, h)]);
  }

  ghost function D5(off: Offsets, h: Hash): Db { Db(Fs(off, h, 4) + [G2(off, h)], 21, 2) }

  lemma D5Counts(off: Offsets, h: Hash)
    ensures Counts(D5(off, h).files, 4, 1)
  {
    forall f | f in Fs(off, h, 4) ensures f.level == 1 {
      var i :| 0 <= i < 4 && Fs(off, h, 4)[i] == f;
    }
    hide Counts, Fs;
    TwoRuns(Fs(off, h, 4), [G2(off, h)]);
  }

  lemma FifthRound(off: Offsets, h: Hash)
    ensures Reachable(D5(off, h), h)
  {
    hide *;
    var g := G(off, h);
    var d := Db([g] + Fs(off, h, 4), 20, 1);
    var items, t := Items([Part(First(off), 3, 0, K)]), Built(First(off), 3, h);
    Filled(off, h, 4);
    GIs(off, h);
    IsFacts(g, 1, 4, 3, 0, K, h);
    GIsOldest(off, h);
    FirstIs(off);
    FirstSize(off);
    assert [g] + [] == [g];
    OnePart(First(off), 3, 0, K, g.table, h);
    TablesOne(g);
    Overflow(d, 0, g, [], items, [t], Fs(off, h, 4), h);
    OneNews(2, 20, t, h);
    FileIs(2, 21, 3, First(off), h);
    D5Is(off, h);
  }

  lemma D5Is(off: Offsets, h: Hash)
    ensures D5(off, h) == Db(Fs(off, h, 4) + [FileOf(2, 21, 3, First(off), h)], 21, 2)
  {
  }

  lemma FirstSize(off: Offsets)
    ensures 0 < |First(off)| <= MAX_NUM && 0 <= K
  {
  }

  lemma TablesOne(f: File)
    ensures TablesOf([f]) == [f.table]
  {
  }

  lemma IsFacts(f: File, level: nat, name: nat, time: nat, lo: nat, hi: nat, h: Hash)
    requires Is(f, level, name, time, lo, hi, h)
    ensures f.level == level && f.name == name && f.table.time == time && |f.table.entries| > 0
    ensures f.table.MinKey() == lo && f.table.MaxKey() == hi
  {
  }

  // ---------- Tables of parts ----------

  lemma FileOfParts(ps: seq<Part>, level: nat, name: nat, time: nat, i: nat, lo: nat, hi: nat, h: Hash)
    requires PartsOk(ps) && 0 < time && i < |ps| && ps[i].time == time && forall j | 0 <= j < |ps| :: ps[j].time <= time
    requires ps[0].es[0].key == ps[0].lo == lo
    requires var p := ps[|ps| - 1]; p.es[|p.es| - 1].key == p.hi == hi
    ensures Is(FileOf(level, name, time, Entries(ps), h), level, name, time, lo, hi, h)
    ensures FileOf(level, name, time, Entries(ps), h).table.entries == Entries(ps)
    ensures IsTableOf(Built(Entries(ps), time, h), Items(ps), h)
  {
    hide Is, IsTableOf, FileOf, Entries, Items;
    PartsAreTable(ps, time, i, h);
    PartsInRange(ps);
    FileOfIs(level, name, time, Entries(ps), h, lo, hi);
  }

  // ---------- The sixth round: two full tables and a third one, all of one time ----------

  function CParts(off: Offsets): seq<Part> {
    [Part([E(off, 10, 24)], 24, 10, 10), Part(Block(off, 11, 407, 22), 22, 11, 417)]
  }

  function DParts(off: Offsets): seq<Part> {
    [Part(Block(off, 418, 407, 23), 23, 418, 824), Part([E(off, 825, 24)], 24, 825, 825)]
  }

  function RParts(off: Offsets): seq<Part> {
    [Part(Three(off, 10000, 5), 7, 10000, 10002), Part(Three(off, 20000, 9), 11, 20000, 20002),
     Part(Three(off, 30000, 13), 15, 30000, 30002), Part(Three(off, 40000, 17), 19, 40000, 40002),
     Part([E(off, 50000, 24)], 24, 50000, 50000)]
  }

  ghost function C(off: Offsets, h: Hash): File { FileOf(1, 25, 24, Entries(CParts(off)), h) }

  ghost function D(off: Offsets, h: Hash): File { FileOf(1, 26, 24, Entries(DParts(off)), h) }

  ghost function R(off: Offsets, h: Hash): File { FileOf(1, 27, 24, Entries(RParts(off)), h) }

  lemma OneInRange(off: Offsets, k: nat, t: nat)
    requires k <= KEY_MAX
    ensures InRange([E(off, k, t)], k, k)
  {
  }

  lemma CPartsOk(off: Offsets)
    ensures PartsOk(CParts(off)) && |Entries(CParts(off))| == |Items(CParts(off))| == MAX_NUM
    ensures forall i | 0 <= i < 408 :: Entries(CParts(off))[i].key == 10 + i
  {
    hide InRange, Block, Entries, Items;
    OneInRange(off, 10, 24);
    BlockIs(off, 11, 407, 22);
    TwoEntries(CParts(off)[0], CParts(off)[1]);
  }

  lemma DPartsOk(off: Offsets)
    ensures PartsOk(DParts(off)) && |Entries(DParts(off))| == |Items(DParts(off))| == MAX_NUM
    ensures forall i | 0 <= i < 408 :: Entries(DParts(off))[i].key == 418 + i
    ensures Entries(DParts(off))[0] == E(off, 418, 23)
  {
    hide InRange, Block, Entries, Items;
    OneInRange(off, 825, 24);
    BlockIs(off, 418, 407, 23);
    TwoEntries(DParts(off)[0], DParts(off)[1]);
  }

  lemma RPartsOk(off: Offsets)
    ensures PartsOk(RParts(off))
  {
    hide InRange, Three;
    ThreeIs(off, 10000, 5);
    ThreeIs(off, 20000, 9);
    ThreeIs(off, 30000, 13);
    ThreeIs(off, 40000, 17);
    OneInRange(off, 50000, 24);
    ThreeSize(off);
  }

  lemma ThreeSize(off: Offsets)
    ensures forall k: nat, t: nat :: |Three(off, k, t)| == 3 && Three(off, k, t)[0].key == k && Three(off, k, t)[2].key == k + 2
  {
  }

  lemma {:induction false} EntriesSize(ps: seq<Part>, n: nat)
    requires forall i | 0 <= i < |ps| :: |ps[i].es| <= n
    ensures |Entries(ps)| <= n * |ps|
  {
    if ps != [] { EntriesSize(ps[1..], n); }
  }

  lemma RPartsSize(off: Offsets)
    ensures 0 < |Items(RParts(off))| <= MAX_NUM
  {
    var ps := RParts(off);
    hide RParts, Three, Items, Entries;
    RPartsAre(off);
    EntriesSize(ps, 3);
    ItemsSize(ps);
    RPartsOk(off);
    PartsInRange(ps);
  }

  lemma RPartsAre(off: Offsets)
    ensures |RParts(off)| == 5 && forall i | 0 <= i < 5 :: |RParts(off)[i].es| <= 3
  {
  }

  lemma CIs(off: Offsets, h: Hash)
    ensures Is(C(off, h), 1, 25, 24, 10, 417, h) && C(off, h).table.entries == Entries(CParts(off))
    ensures IsTableOf(Built(Entries(CParts(off)), 24, h), Items(CParts(off)), h)
  {
    hide Is, IsTableOf, FileOf, Entries, Items, PartsOk, Block;
    CPartsOk(off);
    FileOfParts(CParts(off), 1, 25, 24, 0, 10, 417, h);
  }

  lemma DIs(off: Offsets, h: Hash)
    ensures Is(D(off, h), 1, 26, 24, 418, 825, h) && D(off, h).table.entries == Entries(DParts(off))
    ensures IsTableOf(Built(Entries(DParts(off)), 24, h), Items(DParts(off)), h)
  {
    hide Is, IsTableOf, FileOf, Entries, Items, PartsOk, Block;
    DPartsOk(off);
    FileOfParts(DParts(off), 1, 26, 24, 1, 418, 825, h);
  }

  lemma RIs(off: Offsets, h: Hash)
    ensures Is(R(off, h), 1, 27, 24, 10000, 50000, h) && R(off, h).table.entries == Entries(RParts(off))
    ensures IsTableOf(Built(Entries(RParts(off)), 24, h), Items(RParts(off)), h)
  {
    hide Is, IsTableOf, FileOf, Entries, Items, PartsOk, Block, Three;
    RPartsOk(off);
    ThreeSize(off);
    FileOfParts(RParts(off), 1, 27, 24, 4, 10000, 50000, h);
  }

  ghost function SixthParts(off: Offsets): seq<Part> { CParts(off) + DParts(off) + RParts(off) }

  lemma SixthFormed(off: Offsets, h: Hash)
    ensures Formed([C(off, h).table, D(off, h).table, R(off, h).table], Items(SixthParts(off)), h)
  {
    hide CParts, DParts, RParts, Entries, Items, IsTableOf, Formed, Is, PartsOk, Built;
    CIs(off, h);
    DIs(off, h);
    RIs(off, h);
    CPartsOk(off);
    DPartsOk(off);
    RPartsSize(off);
    ItemsJoin(CParts(off) + DParts(off), RParts(off));
    ItemsJoin(CParts(off), DParts(off));
    var c, d, r := Items(CParts(off)), Items(DParts(off)), Items(RParts(off));
    FormedOne(R(off, h).table, r, h);
    FormedMore(D(off, h).table, [R(off, h).table], d, r, h);
    FormedMore(C(off, h).table, [D(off, h).table] + [R(off, h).table], c, d + r, h);
    assert c + (d + r) == c + d + r;
    assert [C(off, h).table] + ([D(off, h).table] + [R(off, h).table]) == [C(off, h).table, D(off, h).table, R(off, h).table];
  }

  lemma SixthPartsOk(off: Offsets)
    ensures PartsOk(SixthParts(off))
  {
    hide InRange, PartsOk, Block, Three;
    CPartsOk(off);
    DPartsOk(off);
    RPartsOk(off);
    PartsJoin(CParts(off), DParts(off));
    PartsJoin(CParts(off) + DParts(off), RParts(off));
  }

  /** The third memtable of the sixth round. */
  function Ends(off: Offsets): seq<Entry> { [E(off, 10, 24), E(off, 825, 24), E(off, 50000, 24)] }

  lemma EndsIs(off: Offsets)
    ensures InRange(Ends(off), 10, 50000) && IsMemtable(Ends(off))
    ensures Ends(off)[0].key == 10 && |Ends(off)| == 3 && Ends(off)[2].key == 50000
  {
  }

  lemma SixthFills(off: Offsets, ts: seq<Table>)
    requires |ts| == 7 && ts[0].time == 22 && ts[1].time == 23 && ts[2].time == 24
    requires ts[0].entries == Block(off, 11, 407, 22) && ts[1].entries == Block(off, 418, 407, 23) && ts[2].entries == Ends(off)
    requires forall i | 3 <= i < 7 :: ts[i].time == 4 * i - 5 && ts[i].entries == Three(off, 10000 * (i - 2), 4 * i - 7)
    ensures Fills(SixthParts(off), ts)
  {
    hide Block, Three, E;
    var ps := SixthParts(off);
    assert ts[3].time == 7 && ts[4].time == 11 && ts[5].time == 15 && ts[6].time == 19;
    assert |ps| == 9;
    forall i, e | 0 <= i < |ps| && e in ps[i].es
      ensures exists j :: 0 <= j < |ts| && e in ts[j].entries && ts[j].time == ps[i].time
    {
      var j := [2, 0, 1, 2, 3, 4, 5, 6, 2][i];
      assert e in ts[j].entries && ts[j].time == ps[i].time;
    }
    forall j, e | 0 <= j < |ts| && e in ts[j].entries
      ensures exists i :: 0 <= i < |ps| && e in ps[i].es && ps[i].time == ts[j].time
    {
      var i := if j != 2 then [1, 2, 0, 4, 5, 6, 7][j] else if e == E(off, 10, 24) then 0 else if e == E(off, 825, 24) then 3 else 8;
      assert e in ps[i].es && ps[i].time == ts[j].time;
    }
  }

  lemma SixthSorts(off: Offsets, ts: seq<Table>)
    requires Fills(SixthParts(off), ts)
    ensures Sorts(Items(SixthParts(off)), ts)
  {
    SixthPartsOk(off);
    assert SixthParts(off) != [];
    hide *;
    PartsAreSorted(SixthParts(off), ts);
  }

  ghost function SixthFresh(off: Offsets, h: Hash): seq<File> {
    Fresh(D5(off, h), Block(off, 11, 407, 22), Block(off, 418, 407, 23), Ends(off), h)
  }

  lemma SixthFreshIs(off: Offsets, h: Hash)
    ensures var fs := SixthFresh(off, h);
      && |fs| == 3 && Is(fs[0], 0, 22, 22, 11, 417, h) && Is(fs[1], 0, 23, 23, 418, 824, h) && Is(fs[2], 0, 24, 24, 10, 50000, h)
      && fs[0].table.entries == Block(off, 11, 407, 22) && fs[1].table.entries == Block(off, 418, 407, 23)
      && fs[2].table.entries == Ends(off)
  {
    hide Is, FileOf, Block, Ends, InRange;
    BlockIs(off, 11, 407, 22);
    BlockIs(off, 418, 407, 23);
    EndsIs(off);
    FileOfIs(0, 22, 22, Block(off, 11, 407, 22), h, 11, 417);
    FileOfIs(0, 23, 23, Block(off, 418, 407, 23), h, 418, 824);
    FileOfIs(0, 24, 24, Ends(off), h, 10, 50000);
  }

  lemma SixthSpans(off: Offsets, h: Hash)
    ensures Spans(SixthFresh(off, h), 10, 50000)
  {
    hide SixthFresh, Table.Ok;
    SixthFreshIs(off, h);
    var fs := SixthFresh(off, h);
    assert fs[2] in fs;
  }

  lemma SixthTables(off: Offsets, h: Hash)
    ensures Fills(SixthParts(off), TablesOf(SixthFresh(off, h) + Fs(off, h, 4)))
  {
    hide SixthFresh, SixthParts, Fs, F, Fills, Table.Ok, Block, Three, Ends;
    SixthFreshIs(off, h);
    var cands := SixthFresh(off, h) + Fs(off, h, 4);
    forall i | 3 <= i < 7
      ensures cands[i].table.time == 4 * i - 5 && cands[i].table.entries == Three(off, 10000 * (i - 2), 4 * i - 7)
    {
      FIs(off, h, i - 2);
    }
    SixthFills(off, TablesOf(cands));
  }

  lemma SixthMeets(off: Offsets, h: Hash)
    ensures Meets(D5(off, h).files, 0, Fs(off, h, 4), 10, 50000)
    ensures Remaining(D5(off, h).files, Fs(off, h, 4)) == [G2(off, h)]
  {
    hide G2, F, Fs, Remaining, Table.Ok;
    G2Is(off, h);
    forall i: nat | 0 < i <= 4 ensures Is(F(off, h, i), 1, 4 * i + 4, 4 * i + 3, 10000 * i, 10000 * i + 2, h) {
      FIs(off, h, i);
    }
    RemainingBack(Fs(off, h, 4), [G2(off, h)], Fs(off, h, 4));
  }

  ghost function D6(off: Offsets, h: Hash): Db { Db([G2(off, h), C(off, h), D(off, h), R(off, h)], 27, 2) }

  lemma ThreeNews(level: nat, last: nat, a: Table, b: Table, c: Table)
    requires level > 0
    ensures Step(level - 1, [], [], 0, 0, false, [], [a, b, c]).News(last) ==
            [File(level, last + 1, a), File(level, last + 2, b), File(level, last + 3, c)]
  {
  }

  lemma SixthRound(off: Offsets, h: Hash)
    ensures Reachable(D6(off, h), h)
  {
    hide *;
    FifthRound(off, h);
    D5Counts(off, h);
    SixthMemtables(off);
    SixthSpans(off, h);
    SixthTables(off, h);
    SixthSorts(off, TablesOf(SixthFresh(off, h) + Fs(off, h, 4)));
    SixthFormed(off, h);
    SixthMeets(off, h);
    SixthIs(off, h);
    var tables := [C(off, h).table, D(off, h).table, R(off, h).table];
    Round(D5(off, h), 4, 1, Block(off, 11, 407, 22), Block(off, 418, 407, 23), Ends(off), Fs(off, h, 4), 10, 50000,
          Items(SixthParts(off)), tables, [G2(off, h)], h);
    ThreeNews(1, 24, tables[0], tables[1], tables[2]);
  }

  lemma SixthMemtables(off: Offsets)
    ensures IsMemtable(Block(off, 11, 407, 22)) && IsMemtable(Block(off, 418, 407, 23)) && IsMemtable(Ends(off))
  {
    hide IsMemtable, Block, Ends;
    BlockIs(off, 11, 407, 22);
    BlockIs(off, 418, 407, 23);
    EndsIs(off);
  }

  lemma SixthIs(off: Offsets, h: Hash)
    ensures 407 <= MAX_NUM && D5(off, h).last == 21 && D5(off, h).tot == 2
    ensures SixthFresh(off, h) == Fresh(D5(off, h), Block(off, 11, 407, 22), Block(off, 418, 407, 23), Ends(off), h)
    ensures D6(off, h) == Db([G2(off, h)] + [File(1, 25, C(off, h).table), File(1, 26, D(off, h).table), File(1, 27, R(off, h).table)], 27, 2)
  {
    hide Built, Entries;
  }

  // ---------- The seventh and the eighth round: level 1 is too full again ----------

  ghost function F5(off: Offsets, h: Hash): File { FileOf(1, 31, 30, Three(off, 60000, 28), h) }

  ghost function F6(off: Offsets, h: Hash): File { FileOf(1, 35, 34, Three(off, 70000, 32), h) }

  lemma F56Are(off: Offsets, h: Hash)
    ensures Is(F5(off, h), 1, 31, 30, 60000, 60002, h) && F5(off, h).table.entries == Three(off, 60000, 28)
    ensures Is(F6(off, h), 1, 35, 34, 70000, 70002, h) && F6(off, h).table.entries == Three(off, 70000, 32)
  {
    hide FileOf, Is, InRange;
    ThreeIs(off, 60000, 28);
    ThreeIs(off, 70000, 32);
    FileOfIs(1, 31, 30, Three(off, 60000, 28), h, 60000, 60002);
    FileOfIs(1, 35, 34, Three(off, 70000, 32), h, 70000, 70002);
  }

  ghost function D7(off: Offsets, h: Hash): Db { Db([G2(off, h), C(off, h), D(off, h), R(off, h), F5(off, h)], 31, 2) }

  ghost function D8(off: Offsets, h: Hash): Db {
    Db([G2(off, h), C(off, h), D(off, h), R(off, h), F5(off, h), F6(off, h)], 35, 2)
  }

  /** What the run knows of the files of these rounds. */
  lemma FilesAre(off: Offsets, h: Hash)
    ensures Is(G2(off, h), 2, 21, 3, 0, K, h) && Is(C(off, h), 1, 25, 24, 10, 417, h) && Is(D(off, h), 1, 26, 24, 418, 825, h)
    ensures Is(R(off, h), 1, 27, 24, 10000, 50000, h) && Is(F5(off, h), 1, 31, 30, 60000, 60002, h)
    ensures Is(F6(off, h), 1, 35, 34, 70000, 70002, h)
  {
    hide Is, FileOf;
    G2Is(off, h);
    CIs(off, h);
    DIs(off, h);
    RIs(off, h);
    F56Are(off, h);
  }

  lemma D6Counts(off: Offsets, h: Hash)
    ensures Counts(D6(off, h).files, 3, 1)
  {
    var a, b := [C(off, h), D(off, h), R(off, h)], [G2(off, h)];
    assert b + a == D6(off, h).files;
    hide Counts, Entries, Built, D6;
    TwoRuns(a, b);
  }

  lemma LaterFree(off: Offsets, h: Hash)
    ensures Free(D6(off, h).files, 60000, 60002) && Free(D7(off, h).files, 70000, 70002)
  {
    FilesAre(off, h);
    hide G2, C, D, R, F5, Table.Ok;
  }

  lemma EighthRound(off: Offsets, h: Hash)
    ensures Reachable(D8(off, h), h) && Counts(D8(off, h).files, 5, 1)
  {
    SixthRound(off, h);
    D6Counts(off, h);
    LaterFree(off, h);
    hide Reachable, Counts, Free, G2, C, D, R, FileOf;
    Triple(D6(off, h), 3, 1, E(off, 60000, 28), E(off, 60001, 29), E(off, 60002, 30), h);
    assert D6(off, h).files + [F5(off, h)] == D7(off, h).files;
    Triple(D7(off, h), 4, 1, E(off, 70000, 32), E(off, 70001, 33), E(off, 70002, 34), h);
    assert D7(off, h).files + [F6(off, h)] == D8(off, h).files;
  }

  // ---------- C moves to level 2 and meets the table with K there ----------

  function PParts(off: Offsets): seq<Part> {
    CPartsOk(off);
    [Part([E(off, 0, 1), E(off, 1, 2)], 3, 0, 1), Part(Entries(CParts(off))[..406], 24, 10, 415)]
  }

  function QParts(off: Offsets): seq<Part> {
    CPartsOk(off);
    [Part(Entries(CParts(off))[406..], 24, 416, 417), Part([E(off, K, 3)], 3, K, K)]
  }

  ghost function P(off: Offsets, h: Hash): File { FileOf(2, 36, 24, Entries(PParts(off)), h) }

  ghost function Q(off: Offsets, h: Hash): File { FileOf(2, 37, 24, Entries(QParts(off)), h) }

  lemma CSplits(off: Offsets)
    ensures |Entries(CParts(off))| == 408 && InRange(Entries(CParts(off))[..406], 10, 415) && InRange(Entries(CParts(off))[406..], 416, 417)
  {
    CPartsOk(off);
    PartsInRange(CParts(off));
    hide CParts, Entries, Items;
  }

  lemma PPartsOk(off: Offsets)
    ensures PartsOk(PParts(off)) && |Items(PParts(off))| == MAX_NUM
    ensures |PParts(off)[1].es| == 406 && PParts(off)[1].es[405].key == 415
  {
    CSplits(off);
    CPartsOk(off);
    TwoEntries(PParts(off)[0], PParts(off)[1]);
    hide CParts, Entries, Items;
    assert InRange([E(off, 0, 1), E(off, 1, 2)], 0, 1);
  }

  lemma QPartsOk(off: Offsets)
    ensures PartsOk(QParts(off)) && |Items(QParts(off))| == |Entries(QParts(off))| == 3
    ensures QParts(off)[0].es[0].key == 416 && Entries(QParts(off))[2] == E(off, K, 3)
  {
    CSplits(off);
    CPartsOk(off);
    TwoEntries(QParts(off)[0], QParts(off)[1]);
    hide CParts, Entries, Items;
    OneInRange(off, K, 3);
  }

  lemma PIs(off: Offsets, h: Hash)
    ensures Is(P(off, h), 2, 36, 24, 0, 415, h) && P(off, h).table.entries == Entries(PParts(off))
    ensures IsTableOf(Built(Entries(PParts(off)), 24, h), Items(PParts(off)), h)
  {
    CSplits(off);
    hide Is, IsTableOf, FileOf, Entries, Items, PartsOk, CParts, InRange;
    PPartsOk(off);
    FileOfParts(PParts(off), 2, 36, 24, 1, 0, 415, h);
  }

  lemma QIs(off: Offsets, h: Hash)
    ensures Is(Q(off, h), 2, 37, 24, 416, K, h) && Q(off, h).table.entries == Entries(QParts(off))
    ensures IsTableOf(Built(Entries(QParts(off)), 24, h), Items(QParts(off)), h)
  {
    CSplits(off);
    hide Is, IsTableOf, FileOf, Entries, Items, PartsOk, CParts, InRange;
    QPartsOk(off);
    FileOfParts(QParts(off), 2, 37, 24, 0, 416, K, h);
  }

  ghost function OverParts(off: Offsets): seq<Part> { PParts(off) + QParts(off) }

  lemma OverFormed(off: Offsets, h: Hash)
    ensures Formed([P(off, h).table, Q(off, h).table], Items(OverParts(off)), h)
  {
    hide PParts, QParts, Entries, Items, IsTableOf, Formed, Is, PartsOk, Built;
    PIs(off, h);
    QIs(off, h);
    PPartsOk(off);
    QPartsOk(off);
    ItemsJoin(PParts(off), QParts(off));
    FormedOne(Q(off, h).table, Items(QParts(off)), h);
    FormedMore(P(off, h).table, [Q(off, h).table], Items(PParts(off)), Items(QParts(off)), h);
    assert [P(off, h).table] + [Q(off, h).table] == [P(off, h).table, Q(off, h).table];
  }

  lemma OverFills(off: Offsets, ts: seq<Table>)
    requires |ts| == 2 && ts[0].time == 24 && ts[0].entries == Entries(CParts(off)) && ts[1].time == 3 && ts[1].entries == First(off)
    ensures Fills(OverParts(off), ts)
  {
    CSplits(off);
    hide Entries, CParts, E;
    var ps := OverParts(off);
    forall i, e | 0 <= i < |ps| && e in ps[i].es
      ensures exists j :: 0 <= j < |ts| && e in ts[j].entries && ts[j].time == ps[i].time
    {
      var j := [1, 0, 0, 1][i];
      assert e in ts[j].entries && ts[j].time == ps[i].time;
    }
    forall j, e | 0 <= j < |ts| && e in ts[j].entries
      ensures exists i :: 0 <= i < |ps| && e in ps[i].es && ps[i].time == ts[j].time
    {
      assert ts[0].entries == ts[0].entries[..406] + ts[0].entries[406..];
      var i := if j == 0 then (if e in ts[0].entries[..406] then 1 else 2) else if e == E(off, K, 3) then 3 else 0;
      assert e in ps[i].es && ps[i].time == ts[j].time;
    }
  }

  lemma OverSorts(off: Offsets, h: Hash)
    ensures Sorts(Items(OverParts(off)), TablesOf([C(off, h)] + [G2(off, h)]))
  {
    CIs(off, h);
    G2Is(off, h);
    PPartsOk(off);
    QPartsOk(off);
    hide C, G2, Entries, Items, Sorts, InRange, CParts, First, Fills, Table.Ok;
    PartsJoin(PParts(off), QParts(off));
    OverFills(off, TablesOf([C(off, h)] + [G2(off, h)]));
    PartsAreSorted(OverParts(off), TablesOf([C(off, h)] + [G2(off, h)]));
  }

  lemma CIsOldest(off: Offsets, h: Hash)
    ensures var files := D8(off, h).files;
      && C(off, h) in files && (forall f | f in files && f.level == 1 && |f.table.entries| > 0 :: Older(C(off, h), f))
      && Meets(files, 1, [G2(off, h)], 10, 417)
      && Remaining(files, [C(off, h)] + [G2(off, h)]) == [D(off, h), R(off, h), F5(off, h), F6(off, h)]
  {
    FilesAre(off, h);
    hide G2, C, D, R, F5, F6, Remaining, Table.Ok;
    var a, b := [G2(off, h), C(off, h)], [D(off, h), R(off, h), F5(off, h), F6(off, h)];
    assert D8(off, h).files == a + b;
    RemainingBack(a, b, [C(off, h)] + [G2(off, h)]);
  }

  ghost function D9(off: Offsets, h: Hash): Db {
    Db([D(off, h), R(off, h), F5(off, h), F6(off, h), P(off, h), Q(off, h)], 37, 2)
  }

  lemma TwoNews(level: nat, last: nat, a: Table, b: Table)
    requires level > 0
    ensures Step(level - 1, [], [], 0, 0, false, [], [a, b]).News(last) == [File(level, last + 1, a), File(level, last + 2, b)]
  {
  }

  lemma D9Is(off: Offsets, h: Hash)
    ensures D8(off, h).last == 35 && D8(off, h).tot == 2
    ensures D9(off, h) == Db([D(off, h), R(off, h), F5(off, h), F6(off, h)] + [File(2, 36, P(off, h).table), File(2, 37, Q(off, h).table)], 37, 2)
  {
    hide Built, Entries;
  }

  lemma SecondOverflow(off: Offsets, h: Hash)
    ensures Reachable(D9(off, h), h)
  {
    hide *;
    EighthRound(off, h);
    CIs(off, h);
    IsFacts(C(off, h), 1, 25, 24, 10, 417, h);
    CIsOldest(off, h);
    OverSorts(off, h);
    OverFormed(off, h);
    D9Is(off, h);
    var p, q := P(off, h).table, Q(off, h).table;
    Overflow(D8(off, h), 1, C(off, h), [G2(off, h)], Items(OverParts(off)), [p, q],
             [D(off, h), R(off, h), F5(off, h), F6(off, h)], h);
    TwoNews(2, 35, p, q);
  }

  // ---------- The ninth round ----------

  function AParts(off: Offsets): seq<Part> { [Part(Block(off, 10, 408, 38), 38, 10, 417)] }

  function BParts(off: Offsets): seq<Part> { [Part(Entries(DParts(off)), 24, 418, 825)] }

  function LParts(off: Offsets): seq<Part> {
    [Part(Entries(RParts(off)), 24, 10000, 50000), Part(Three(off, 60000, 28), 30, 60000, 60002),
     Part(Three(off, 70000, 32), 34, 70000, 70002), Part([E(off, 80000, 39)], 39, 80000, 80000),
     Part([E(off, 80001, 40)], 40, 80001, 80001)]
  }

  ghost function A(off: Offsets, h: Hash): File { FileOf(1, 41, 38, Entries(AParts(off)), h) }

  ghost function B(off: Offsets, h: Hash): File { FileOf(1, 42, 24, Entries(BParts(off)), h) }

  ghost function L(off: Offsets, h: Hash): File { FileOf(1, 43, 40, Entries(LParts(off)), h) }

  lemma APartsOk(off: Offsets)
    ensures PartsOk(AParts(off)) && |Items(AParts(off))| == MAX_NUM && Entries(AParts(off)) == Block(off, 10, 408, 38)
  {
    hide InRange, Block, Entries, Items;
    BlockIs(off, 10, 408, 38);
    OneEntries(AParts(off)[0]);
  }

  lemma BPartsOk(off: Offsets)
    ensures PartsOk(BParts(off)) && |Items(BParts(off))| == MAX_NUM && Entries(BParts(off)) == Entries(DParts(off))
    ensures BParts(off)[0].es[0] == E(off, 418, 23) && |BParts(off)[0].es| == 408 && BParts(off)[0].es[407].key == 825
  {
    hide InRange, Entries, Items, Block;
    DPartsOk(off);
    PartsInRange(DParts(off));
    OneEntries(BParts(off)[0]);
  }

  lemma RInRange(off: Offsets)
    ensures var es := Entries(RParts(off));
      InRange(es, 10000, 50000) && 0 < |es| <= 15 && es[0].key == 10000 && es[|es| - 1].key == 50000
  {
    hide InRange, Entries, Items, Three;
    RPartsOk(off);
    PartsInRange(RParts(off));
    RPartsAre(off);
    EntriesSize(RParts(off), 3);
    ThreeSize(off);
  }

  lemma LPartsOk(off: Offsets)
    ensures PartsOk(LParts(off)) && LParts(off)[0].es[0].key == 10000
  {
    hide InRange, Entries, Three, RParts;
    RInRange(off);
    ThreeIs(off, 60000, 28);
    ThreeIs(off, 70000, 32);
    OneInRange(off, 80000, 39);
    OneInRange(off, 80001, 40);
    ThreeSize(off);
  }

  lemma LPartsSize(off: Offsets)
    ensures 0 < |Items(LParts(off))| <= MAX_NUM
  {
    RInRange(off);
    ThreeSize(off);
    LPartsOk(off);
    hide Three, Items, Entries, RParts, InRange, PartsOk;
    EntriesSize(LParts(off), 15);
    ItemsSize(LParts(off));
    PartsInRange(LParts(off));
  }

  lemma AIs(off: Offsets, h: Hash)
    ensures Is(A(off, h), 1, 41, 38, 10, 417, h) && A(off, h).table.entries == Entries(AParts(off))
    ensures IsTableOf(Built(Entries(AParts(off)), 38, h), Items(AParts(off)), h)
  {
    hide Is, IsTableOf, FileOf, Entries, Items, PartsOk, Block;
    APartsOk(off);
    FileOfParts(AParts(off), 1, 41, 38, 0, 10, 417, h);
  }

  lemma BIs(off: Offsets, h: Hash)
    ensures Is(B(off, h), 1, 42, 24, 418, 825, h) && B(off, h).table.entries == Entries(BParts(off))
    ensures IsTableOf(Built(Entries(BParts(off)), 24, h), Items(BParts(off)), h)
  {
    hide Is, IsTableOf, FileOf, Entries, Items, PartsOk, DParts;
    BPartsOk(off);
    FileOfParts(BParts(off), 1, 42, 24, 0, 418, 825, h);
  }

  lemma LIs(off: Offsets, h: Hash)
    ensures Is(L(off, h), 1, 43, 40, 10000, 80001, h) && L(off, h).table.entries == Entries(LParts(off))
    ensures IsTableOf(Built(Entries(LParts(off)), 40, h), Items(LParts(off)), h)
  {
    hide Is, IsTableOf, FileOf, Entries, Items, PartsOk, RParts, Three;
    LPartsOk(off);
    FileOfParts(LParts(off), 1, 43, 40, 4, 10000, 80001, h);
  }

  ghost function NinthParts(off: Offsets): seq<Part> { AParts(off) + BParts(off) + LParts(off) }

  lemma NinthFormed(off: Offsets, h: Hash)
    ensures Formed([A(off, h).table, B(off, h).table, L(off, h).table], Items(NinthParts(off)), h)
  {
    hide AParts, BParts, LParts, Entries, Items, IsTableOf, Formed, Is, PartsOk, Built;
    AIs(off, h);
    BIs(off, h);
    LIs(off, h);
    APartsOk(off);
    BPartsOk(off);
    LPartsSize(off);
    ItemsJoin(AParts(off) + BParts(off), LParts(off));
    ItemsJoin(AParts(off), BParts(off));
    var a, b, l := Items(AParts(off)), Items(BParts(off)), Items(LParts(off));
    FormedOne(L(off, h).table, l, h);
    FormedMore(B(off, h).table, [L(off, h).table], b, l, h);
    FormedMore(A(off, h).table, [B(off, h).table] + [L(off, h).table], a, b + l, h);
    assert a + (b + l) == a + b + l;
    assert [A(off, h).table] + ([B(off, h).table] + [L(off, h).table]) == [A(off, h).table, B(off, h).table, L(off, h).table];
  }

  lemma NinthPartsOk(off: Offsets)
    ensures PartsOk(NinthParts(off))
  {
    hide InRange, PartsOk, Block, Three, Entries, Items;
    APartsOk(off);
    BPartsOk(off);
    LPartsOk(off);
    PartsJoin(AParts(off), BParts(off));
    PartsJoin(AParts(off) + BParts(off), LParts(off));
  }

  lemma NinthFills(off: Offsets, ts: seq<Table>)
    requires |ts| == 7 && ts[0].time == 38 && ts[1].time == 39 && ts[2].time == 40
    requires ts[0].entries == Block(off, 10, 408, 38) && ts[1].entries == [E(off, 80000, 39)] && ts[2].entries == [E(off, 80001, 40)]
    requires ts[3].time == 24 && ts[3].entries == Entries(DParts(off)) && ts[4].time == 24 && ts[4].entries == Entries(RParts(off))
    requires ts[5].time == 30 && ts[5].entries == Three(off, 60000, 28) && ts[6].time == 34 && ts[6].entries == Three(off, 70000, 32)
    ensures Fills(NinthParts(off), ts)
  {
    hide Block, Three, E, Entries, DParts, RParts;
    var ps := NinthParts(off);
    assert |ps| == 7;
    forall i, e | 0 <= i < |ps| && e in ps[i].es
      ensures exists j :: 0 <= j < |ts| && e in ts[j].entries && ts[j].time == ps[i].time
    {
      var j := [0, 3, 4, 5, 6, 1, 2][i];
      assert e in ts[j].entries && ts[j].time == ps[i].time;
    }
    forall j, e | 0 <= j < |ts| && e in ts[j].entries
      ensures exists i :: 0 <= i < |ps| && e in ps[i].es && ps[i].time == ts[j].time
    {
      var i := [0, 5, 6, 1, 2, 3, 4][j];
      assert e in ps[i].es && ps[i].time == ts[j].time;
    }
  }

  lemma NinthSorts(off: Offsets, ts: seq<Table>)
    requires Fills(NinthParts(off), ts)
    ensures Sorts(Items(NinthParts(off)), ts)
  {
    NinthPartsOk(off);
    assert NinthParts(off) != [];
    hide *;
    PartsAreSorted(NinthParts(off), ts);
  }

  ghost function NinthFresh(off: Offsets, h: Hash): seq<File> {
    Fresh(D9(off, h), Block(off, 10, 408, 38), [E(off, 80000, 39)], [E(off, 80001, 40)], h)
  }

  lemma NinthMemtables(off: Offsets)
    ensures IsMemtable(Block(off, 10, 408, 38)) && IsMemtable([E(off, 80000, 39)]) && IsMemtable([E(off, 80001, 40)])
  {
    hide Block;
    BlockIs(off, 10, 408, 38);
  }

  lemma NinthFiles(off: Offsets, h: Hash)
    ensures NinthFresh(off, h) == [FileOf(0, 38, 38, Block(off, 10, 408, 38), h), FileOf(0, 39, 39, [E(off, 80000, 39)], h),
                                   FileOf(0, 40, 40, [E(off, 80001, 40)], h)]
  {
    hide FileOf, Block, E;
  }

  lemma NinthFreshIs(off: Offsets, h: Hash)
    ensures var fs := NinthFresh(off, h);
      && |fs| == 3 && Is(fs[0], 0, 38, 38, 10, 417, h) && Is(fs[1], 0, 39, 39, 80000, 80000, h) && Is(fs[2], 0, 40, 40, 80001, 80001, h)
      && fs[0].table.entries == Block(off, 10, 408, 38) && fs[1].table.entries == [E(off, 80000, 39)]
      && fs[2].table.entries == [E(off, 80001, 40)]
  {
    NinthFiles(off, h);
    hide Is, FileOf, Block, InRange, NinthFresh;
    BlockIs(off, 10, 408, 38);
    OneInRange(off, 80000, 39);
    OneInRange(off, 80001, 40);
    FileOfIs(0, 38, 38, Block(off, 10, 408, 38), h, 10, 417);
    FileOfIs(0, 39, 39, [E(off, 80000, 39)], h, 80000, 80000);
    FileOfIs(0, 40, 40, [E(off, 80001, 40)], h, 80001, 80001);
  }

  lemma NinthSpans(off: Offsets, h: Hash)
    ensures Spans(NinthFresh(off, h), 10, 80001)
  {
    hide NinthFresh, Table.Ok;
    NinthFreshIs(off, h);
    var fs := NinthFresh(off, h);
    assert fs[0] in fs && fs[2] in fs;
  }

  ghost function Level1(off: Offsets, h: Hash): seq<File> { [D(off, h), R(off, h), F5(off, h), F6(off, h)] }

  lemma NinthTables(off: Offsets, h: Hash)
    ensures Fills(NinthParts(off), TablesOf(NinthFresh(off, h) + Level1(off, h)))
  {
    NinthFreshIs(off, h);
    FilesAre(off, h);
    DIs(off, h);
    RIs(off, h);
    F56Are(off, h);
    hide NinthFresh, NinthParts, D, R, F5, F6, DParts, RParts, Entries, Fills, Table.Ok, Block, Three, IsTableOf;
    NinthFills(off, TablesOf(NinthFresh(off, h) + Level1(off, h)));
  }

  lemma NinthMeets(off: Offsets, h: Hash)
    ensures Meets(D9(off, h).files, 0, Level1(off, h), 10, 80001)
    ensures Remaining(D9(off, h).files, Level1(off, h)) == [P(off, h), Q(off, h)]
  {
    FilesAre(off, h);
    PIs(off, h);
    QIs(off, h);
    hide D, R, F5, F6, P, Q, Remaining, Table.Ok, IsTableOf, PParts, QParts;
    assert D9(off, h).files == Level1(off, h) + [P(off, h), Q(off, h)];
    RemainingBack(Level1(off, h), [P(off, h), Q(off, h)], Level1(off, h));
  }

  lemma D9Counts(off: Offsets, h: Hash)
    ensures Counts(D9(off, h).files, 4, 2)
  {
    var a, b := Level1(off, h), [P(off, h), Q(off, h)];
    assert a + b == D9(off, h).files;
    hide Counts, Entries, Built, D9;
    TwoRuns(a, b);
  }

  ghost function D10(off: Offsets, h: Hash): Db { Db([P(off, h), Q(off, h), A(off, h), B(off, h), L(off, h)], 43, 2) }

  lemma D10Is(off: Offsets, h: Hash)
    ensures D9(off, h).last == 37 && D9(off, h).tot == 2
    ensures NinthFresh(off, h) == Fresh(D9(off, h), Block(off, 10, 408, 38), [E(off, 80000, 39)], [E(off, 80001, 40)], h)
    ensures D10(off, h) ==
            Db([P(off, h), Q(off, h)] + [File(1, 41, A(off, h).table), File(1, 42, B(off, h).table), File(1, 43, L(off, h).table)], 43, 2)
  {
    hide Built, Entries, Block, Fresh;
  }

  lemma NinthRound(off: Offsets, h: Hash)
    ensures Reachable(D10(off, h), h)
  {
    hide *;
    SecondOverflow(off, h);
    D9Counts(off, h);
    NinthMemtables(off);
    NinthSpans(off, h);
    NinthTables(off, h);
    NinthSorts(off, TablesOf(NinthFresh(off, h) + Level1(off, h)));
    NinthFormed(off, h);
    NinthMeets(off, h);
    D10Is(off, h);
    var tables := [A(off, h).table, B(off, h).table, L(off, h).table];
    Round(D9(off, h), 4, 2, Block(off, 10, 408, 38), [E(off, 80000, 39)], [E(off, 80001, 40)], Level1(off, h), 10, 80001,
          Items(NinthParts(off)), tables, [P(off, h), Q(off, h)], h);
    ThreeNews(1, 40, tables[0], tables[1], tables[2]);
  }

  // ---------- The lookup of K ----------

  lemma EndIsInLimits(off: Offsets, h: Hash)
    ensures InLimits(D10(off, h).files)
  {
    var a, b := [A(off, h), B(off, h), L(off, h)], [P(off, h), Q(off, h)];
    assert b + a == D10(off, h).files && b + a + [] == b + a;
    hide Counts, Entries, Built, D10, InLimits;
    TwoRuns(a, b);
    CountsInLimits(b + a, 3, 2, []);
  }

  /** Only keys between lo and hi are in the file. */
  lemma HoldsInRange(f: File, level: nat, name: nat, time: nat, lo: nat, hi: nat, h: Hash, k: nat)
    requires Is(f, level, name, time, lo, hi, h) && Holds(f, k)
    ensures lo <= k <= hi
  {
    HasIsLookup(f.table.entries, k);
    NoStoredKeyIsSkipped(f.table, h, k);
  }

  lemma IsSorted(f: File, level: nat, name: nat, time: nat, lo: nat, hi: nat, h: Hash)
    requires Is(f, level, name, time, lo, hi, h)
    ensures Sorted(f.table.entries) && f.level == level && f.table.time == time
  {
  }

  /** K is in Q at level 2 and in B at level 1, under the same time. */
  lemma HoldersOfK(off: Offsets, h: Hash)
    ensures var fs := D10(off, h).files;
      && |fs| == 5 && fs[1].level == 2 && fs[1].table.time == 24 && fs[3].level == 1 && fs[3].table.time == 24
      && Lookup(fs[1].table.entries, K) == Some(E(off, K, 3)) && Lookup(fs[3].table.entries, K) == Some(E(off, K, 23))
      && forall i | 0 <= i < 5 :: Holds(fs[i], K) <==> i == 1 || i == 3
  {
    PIs(off, h);
    QIs(off, h);
    AIs(off, h);
    BIs(off, h);
    LIs(off, h);
    QPartsOk(off);
    BPartsOk(off);
    hide P, Q, A, B, L, Is, IsTableOf, PParts, QParts, AParts, BParts, LParts, Lookup, Sorted, Entries, Items, PartsOk;
    IsSorted(Q(off, h), 2, 37, 24, 416, K, h);
    IsSorted(B(off, h), 1, 42, 24, 418, 825, h);
    BFirst(off);
    LookupAt(Q(off, h).table.entries, 2);
    LookupAt(B(off, h).table.entries, 0);
    if Holds(P(off, h), K) { HoldsInRange(P(off, h), 2, 36, 24, 0, 415, h, K); }
    if Holds(A(off, h), K) { HoldsInRange(A(off, h), 1, 41, 38, 10, 417, h, K); }
    if Holds(L(off, h), K) { HoldsInRange(L(off, h), 1, 43, 40, 10000, 80001, h, K); }
  }

  lemma BFirst(off: Offsets)
    ensures |Entries(BParts(off))| == 408 && Entries(BParts(off))[0] == E(off, 418, 23)
  {
    hide Entries, Items;
    BPartsOk(off);
    DPartsOk(off);
  }

  lemma StaleLookup(files: seq<File>, last: nat, tot: nat, h: Hash, k: nat, v: nat, w: nat, e: Entry, e': Entry)
    requires w < v < |files| && files[v].level < files[w].level && files[v].table.time == files[w].table.time
    requires Lookup(files[v].table.entries, k) == Some(e) && Lookup(files[w].table.entries, k) == Some(e') && e.len > 0
    requires forall i | 0 <= i < |files| :: Holds(files[i], k) <==> i == v || i == w
    requires Levelled(files, last, tot, h)
    ensures Shown(files, k) == Some(e)
    ensures Won(TablesOf(files), k) == Some(Item(e', files[v].table.time))
  {
    hide Levelled, Lookup, Version, Winner;
    VersionIsUnique(files, last, tot, h, k);
    WinnerIsNewest(TablesOf(files), k, |files|);
    assert IsVersion(files, k, files[v]);
    assert TablesOf(files)[v] == files[v].table && TablesOf(files)[w] == files[w].table;
    var x := Winner(TablesOf(files), k, |files|);
    assert x >= 0 && Holds(files[x], k);
  }

  lemma KIsLive(off: Offsets)
    ensures E(off, K, 23).len > 0
  {
  }

  /**
    Twenty-seven saves lead to a state, with all levels within their limits, in which the lookup
    of K stops at the entry of the third save although that of the seventeenth save counts.
   */
  lemma SavesMakeLookupStale(off: Offsets, h: Hash) returns (d: Db)
    ensures Reachable(d, h) && InLimits(d.files)
    ensures Shown(d.files, K) == Some(E(off, K, 23))
    ensures Won(TablesOf(d.files), K) == Some(Item(E(off, K, 3), 24))
  {
    hide *;
    KIsLive(off);
    d := D10(off, h);
    NinthRound(off, h);
    EndIsInLimits(off, h);
    ReachableIsLevelled(d, h);
    HoldersOfK(off, h);
    StaleLookup(d.files, d.last, d.tot, h, K, 3, 1, E(off, K, 23), E(off, K, 3));
  }
}

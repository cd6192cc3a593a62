/**
  Pieces of runs: three flushes and the compaction of level 0 that follows, and the compaction of
  level 1 when it has one table too many.
 */
module LsmSteps {
  import opened LsmTable
  import opened Options
  import opened LsmMerge
  import opened LsmLevels
  import opened LsmRuns
  import opened LsmPieces
  import opened Powers

  // ---------- How many tables a level has ----------

  /** n1 tables at level 1, n2 at level 2, and no others. */
  ghost predicate Counts(files: seq<File>, n1: nat, n2: nat) {
    forall l: nat :: CountLevel(files, l) == if l == 1 then n1 else if l == 2 then n2 else 0
  }

  lemma NothingCounts()
    ensures Counts([], 0, 0)
  {
  }

  lemma CountOne(f: File, l: nat)
    ensures CountLevel([f], l) == if f.level == l then 1 else 0
  {
    assert [f][1..] == [];
  }

  lemma OneMoreCounts(files: seq<File>, n1: nat, n2: nat, f: File)
    requires Counts(files, n1, n2) && (f.level == 1 || f.level == 2)
    ensures Counts(files + [f], if f.level == 1 then n1 + 1 else n1, if f.level == 2 then n2 + 1 else n2)
  {
    forall l: nat ensures CountLevel(files + [f], l) == CountLevel(files, l) + if f.level == l then 1 else 0 {
      CountAppend(files, [f], l);
      CountOne(f, l);
    }
    hide CountLevel;
  }

  /** Tables of level 1 and tables of level 2. */
  lemma TwoRuns(a: seq<File>, b: seq<File>)
    requires (forall f | f in a :: f.level == 1) && forall f | f in b :: f.level == 2
    ensures Counts(a + b, |a|, |b|) && Counts(b + a, |a|, |b|)
  {
    forall l: nat
      ensures CountLevel(a, l) == (if l == 1 then |a| else 0) && CountLevel(b, l) == if l == 2 then |b| else 0
    {
      if l == 1 { CountAll(a, l); } else { CountNone(a, l); }
      if l == 2 { CountAll(b, l); } else { CountNone(b, l); }
    }
    hide CountLevel;
    forall l: nat ensures CountLevel(a + b, l) == CountLevel(b + a, l) == CountLevel(a, l) + CountLevel(b, l) {
      CountAppend(a, b, l);
      CountAppend(b, a, l);
    }
  }

  lemma SmallPowers()
    ensures Pow2(0) == 1 && Pow2(1) == 2 && Pow2(2) == 4
  {
    assert Pow2(1) == 2 * Pow2(0) && Pow2(2) == 2 * Pow2(1);
  }

  /** Up to two more tables at level 0 are within the limits. */
  lemma CountsInLimits(files: seq<File>, n1: nat, n2: nat, fresh0: seq<File>)
    requires Counts(files, n1, n2) && n1 <= 4 && n2 <= 8 && |fresh0| <= 2 && forall f | f in fresh0 :: f.level == 0
    ensures InLimits(files + fresh0)
  {
    SmallPowers();
    forall l: nat ensures !Overfull(files + fresh0, l) {
      CountAppend(files, fresh0, l);
      if l == 0 { CountAll(fresh0, 0); } else { CountNone(fresh0, l); }
    }
  }

  // ---------- Files ----------

  /** What a run knows of a file without looking at its entries. */
  ghost predicate Is(f: File, level: nat, name: nat, time: nat, lo: nat, hi: nat, h: Hash) {
    && f.level == level && f.name == name && f.table.time == time && f.table.Ok(h) && |f.table.entries| > 0
    && f.table.MinKey() == lo && f.table.MaxKey() == hi
  }

  ghost function FileOf(level: nat, name: nat, time: nat, es: seq<Entry>, h: Hash): File {
    File(level, name, Built(es, time, h))
  }

  lemma FileOfIs(level: nat, name: nat, time: nat, es: seq<Entry>, h: Hash, lo: nat, hi: nat)
    requires InRange(es, lo, hi) && |es| > 0 && es[0].key == lo && es[|es| - 1].key == hi && 0 < time
    ensures Is(FileOf(level, name, time, es, h), level, name, time, lo, hi, h)
    ensures FileOf(level, name, time, es, h).table.entries == es
  {
    hide FilterOf, Table.Ok;
    BuiltIsOk(es, time, h);
  }

  /** The files of level l + 1 that meet the range are exactly high. */
  ghost predicate Meets(files: seq<File>, level: nat, high: seq<File>, keyMin: nat, keyMax: nat) {
    && NamesDiffer(high) && (forall f | f in high :: f in files && f.level == level + 1)
    && forall f | f in files && |f.table.entries| > 0 && f.level == level + 1 :: f in high <==> Touches(f.table, keyMin, keyMax)
  }

  lemma MeetsIsTouched(files: seq<File>, h: Hash, level: nat, low: seq<File>, high: seq<File>, keyMin: nat, keyMax: nat)
    requires Meets(files, level, high, keyMin, keyMax) && Spans(low, keyMin, keyMax)
    ensures Touched(files, h, level, low, high, keyMin, keyMax)
  {
    hide Touches, NamesDiffer;
  }

  // ---------- Compactions ----------

  /** A compaction of the shallowest overfull level goes on with the run. */
  lemma CompactsOn(d: Db, s: Step, h: Hash, keep: seq<File>)
    requires Reachable(d, h) && (forall l: nat | l < s.level :: !Overfull(d.files, l)) && Overfull(d.files, s.level)
    requires Picks(d.files, s.level, s.low) && Spans(s.low, s.keyMin, s.keyMax)
    requires Meets(d.files, s.level, s.high, s.keyMin, s.keyMax) && NamesDiffer(s.Cands())
    requires s.drop <==> d.tot <= s.level + 1
    requires Sorts(s.items, TablesOf(s.Cands())) && Formed(s.tables, s.items, h)
    requires keep == Remaining(d.files, s.Cands())
    ensures Reachable(Db(keep + s.News(d.last), d.last + |s.tables|, if d.tot < s.level + 1 then s.level + 1 else d.tot), h)
  {
    hide Overfull, Picks, Spans, Meets, NamesDiffer, Sorts, Formed, Remaining, Reachable, Merged, Touched;
    MeetsIsTouched(d.files, h, s.level, s.low, s.high, s.keyMin, s.keyMax);
    SortsIsMerged(s.items, TablesOf(s.Cands()), s.drop);
    var d' := Db(keep + s.News(d.last), d.last + |s.tables|, if d.tot < s.level + 1 then s.level + 1 else d.tot);
    assert Compacted(d, s, h, d');
    hide Compacted;
    NextIsReachable(d, d', h);
  }

  // ---------- Three flushes ----------

  lemma FlushOn(d: Db, es: seq<Entry>, h: Hash)
    requires Reachable(d, h) && InLimits(d.files) && IsMemtable(es)
    ensures Reachable(Flushed(d, es, h), h)
  {
    hide Reachable, IsMemtable, InLimits, Flushed;
    NextIsReachable(d, Flushed(d, es, h), h);
  }

  ghost function Fresh(d: Db, m1: seq<Entry>, m2: seq<Entry>, m3: seq<Entry>, h: Hash): seq<File> {
    [FileOf(0, d.last + 1, d.last + 1, m1, h), FileOf(0, d.last + 2, d.last + 2, m2, h), FileOf(0, d.last + 3, d.last + 3, m3, h)]
  }

  lemma ThreeFlushes(d: Db, n1: nat, n2: nat, m1: seq<Entry>, m2: seq<Entry>, m3: seq<Entry>, h: Hash)
    requires Reachable(d, h) && Counts(d.files, n1, n2) && n1 <= 4 && n2 <= 8
    requires IsMemtable(m1) && IsMemtable(m2) && IsMemtable(m3)
    ensures Reachable(Db(d.files + Fresh(d, m1, m2, m3, h), d.last + 3, d.tot), h)
  {
    hide Reachable, IsMemtable, InLimits, Counts, Built;
    var fs := Fresh(d, m1, m2, m3, h);
    CountsInLimits(d.files, n1, n2, []);
    assert d.files + [] == d.files;
    FlushOn(d, m1, h);
    var d1 := Flushed(d, m1, h);
    CountsInLimits(d.files, n1, n2, [fs[0]]);
    FlushOn(d1, m2, h);
    var d2 := Flushed(d1, m2, h);
    assert d2.files == d.files + [fs[0], fs[1]];
    CountsInLimits(d.files, n1, n2, [fs[0], fs[1]]);
    FlushOn(d2, m3, h);
    assert Flushed(d2, m3, h).files == d.files + fs;
  }

  /** After three flushes level 0 is overfull, and all of it is picked. */
  lemma FreshArePicked(d: Db, n1: nat, n2: nat, fs: seq<File>, h: Hash)
    requires Counts(d.files, n1, n2) && |fs| == 3 && NamesDiffer(fs) && forall f | f in fs :: f.level == 0
    ensures Overfull(d.files + fs, 0) && Picks(d.files + fs, 0, fs)
  {
    SmallPowers();
    CountAppend(d.files, fs, 0);
    CountAll(fs, 0);
    NoLevel(d.files, 0);
    hide CountLevel, NamesDiffer;
  }

  lemma {:induction false} NoLevel(files: seq<File>, l: nat)
    requires CountLevel(files, l) == 0
    ensures forall f | f in files :: f.level != l
  {
    if files != [] {
      NoLevel(files[1..], l);
      assert files == [files[0]] + files[1..];
    }
  }

  /** Three flushes and the compaction of level 0. */
  lemma Round(d: Db, n1: nat, n2: nat, m1: seq<Entry>, m2: seq<Entry>, m3: seq<Entry>, high: seq<File>,
              keyMin: nat, keyMax: nat, items: seq<Item>, tables: seq<Table>, keep: seq<File>, h: Hash)
    requires Reachable(d, h) && Counts(d.files, n1, n2) && n1 <= 4 && n2 <= 8
    requires IsMemtable(m1) && IsMemtable(m2) && IsMemtable(m3)
    requires var fs := Fresh(d, m1, m2, m3, h);
      Spans(fs, keyMin, keyMax) && Sorts(items, TablesOf(fs + high))
    requires Formed(tables, items, h) && Meets(d.files, 0, high, keyMin, keyMax)
    requires keep == Remaining(d.files, high)
    ensures var s := Step(0, [], [], 0, 0, false, [], tables);
      Reachable(Db(keep + s.News(d.last + 3), d.last + 3 + |tables|, if d.tot < 1 then 1 else d.tot), h)
  {
    hide *;
    ThreeFlushes(d, n1, n2, m1, m2, m3, h);
    var fs := Fresh(d, m1, m2, m3, h);
    var d' := Db(d.files + fs, d.last + 3, d.tot);
    var s := Step(0, fs, high, keyMin, keyMax, d.tot <= 1, items, tables);
    FreshAre(d, m1, m2, m3, h);
    FreshArePicked(d, n1, n2, fs, h);
    ReachableIsLevelled(d, h);
    MeetsMore(d.files, fs, high, keyMin, keyMax);
    FreshApart(d, fs, high, h);
    assert fs + high == s.Cands() by { CandsIs(s); }
    CompactsOn(d', s, h, keep);
    SameNews(s, Step(0, [], [], 0, 0, false, [], tables), d.last + 3);
  }

  lemma CandsIs(s: Step)
    ensures s.Cands() == s.low + s.high
  {
  }

  lemma SameNews(s: Step, t: Step, last: nat)
    requires s.level == t.level && s.tables == t.tables
    ensures s.News(last) == t.News(last)
  {
  }

  lemma FreshAre(d: Db, m1: seq<Entry>, m2: seq<Entry>, m3: seq<Entry>, h: Hash)
    ensures var fs := Fresh(d, m1, m2, m3, h);
      |fs| == 3 && NamesDiffer(fs) && forall f | f in fs :: f.level == 0 && f.name > d.last
  {
  }

  lemma FreshApart(d: Db, fs: seq<File>, high: seq<File>, h: Hash)
    requires Levelled(d.files, d.last, d.tot, h) && NamesDiffer(fs) && NamesDiffer(high)
    requires (forall f | f in fs :: f.name > d.last) && forall f | f in high :: f in d.files
    ensures NamesDiffer(fs + high) && Remaining(d.files + fs, fs + high) == Remaining(d.files, high)
  {
    hide Remaining;
    forall f | f in d.files ensures f.name <= d.last {}
    forall i, j | 0 <= i < |fs| && 0 <= j < |high| ensures fs[i].name != high[j].name {
      assert fs[i] in fs && high[j] in high;
    }
    RemainingAppend(d.files, fs, fs + high);
    RemainingNone(fs, fs + high);
    RemainingMore(d.files, fs, high);
    RemainingAll(d.files, fs);
  }

  lemma MeetsMore(files: seq<File>, fs: seq<File>, high: seq<File>, keyMin: nat, keyMax: nat)
    requires Meets(files, 0, high, keyMin, keyMax) && forall f | f in fs :: f.level == 0
    ensures Meets(files + fs, 0, high, keyMin, keyMax) && NamesDiffer(high) && forall f | f in high :: f in files
  {
    hide Touches, NamesDiffer;
  }

  // ---------- Three single keys ----------

  lemma OneIsMemtable(e: Entry)
    requires e.key <= KEY_MAX
    ensures IsMemtable([e])
  {
  }

  lemma OneEntry(level: nat, name: nat, time: nat, e: Entry, h: Hash)
    requires e.key <= KEY_MAX && 0 < time && e.len > 0
    ensures var f := FileOf(level, name, time, [e], h);
      |f.table.entries| > 0 && f.table.MinKey() == f.table.MaxKey() == e.key && f.table.entries == [e] && f.table.time == time
  {
    hide FilterOf;
  }

  lemma TripleItems(e1: Entry, e2: Entry, e3: Entry, time: nat, h: Hash)
    requires e1.key < e2.key < e3.key <= KEY_MAX && e1.len > 0 && e2.len > 0 && e3.len > 0 && 0 < time
    ensures var items := [Item(e1, time), Item(e2, time + 1), Item(e3, time + 2)];
      && (forall ts: seq<Table> | |ts| == 3 && ts[0].time == time && ts[1].time == time + 1 && ts[2].time == time + 2
                  && ts[0].entries == [e1] && ts[1].entries == [e2] && ts[2].entries == [e3] :: Sorts(items, ts))
      && Formed([Built([e1, e2, e3], time + 2, h)], items, h)
  {
    var items := [Item(e1, time), Item(e2, time + 1), Item(e3, time + 2)];
    forall ts: seq<Table> | |ts| == 3 && ts[0].time == time && ts[1].time == time + 1 && ts[2].time == time + 2
                  && ts[0].entries == [e1] && ts[1].entries == [e2] && ts[2].entries == [e3]
      ensures Sorts(items, ts)
    {
      forall x ensures x in items <==> x in AllItems(ts) { AllItemsAre(ts, x); }
    }
    hide FilterOf, Table.Ok, Sorts, AllItems;
    assert EntriesOf(items) == [e1, e2, e3];
    assert items[2].time == time + 2;
    GroupIsTable(items, [e1, e2, e3], time + 2, e1.key, e3.key, h);
    FormedOne(Built([e1, e2, e3], time + 2, h), items, h);
  }

  /** No table of level 1 has keys between lo and hi. */
  ghost predicate Free(files: seq<File>, lo: nat, hi: nat) {
    forall f | f in files && f.level == 1 && |f.table.entries| > 0 :: !Touches(f.table, lo, hi)
  }

  /** Three saves of one key each leave one new table at level 1. */
  lemma Triple(d: Db, n1: nat, n2: nat, e1: Entry, e2: Entry, e3: Entry, h: Hash)
    requires Reachable(d, h) && Counts(d.files, n1, n2) && n1 <= 4 && n2 <= 8
    requires e1.key < e2.key < e3.key <= KEY_MAX && e1.len > 0 && e2.len > 0 && e3.len > 0
    requires Free(d.files, e1.key, e3.key)
    ensures var f := FileOf(1, d.last + 4, d.last + 3, [e1, e2, e3], h);
      && Reachable(Db(d.files + [f], d.last + 4, if d.tot < 1 then 1 else d.tot), h)
      && Counts(d.files + [f], n1 + 1, n2)
  {
    hide *;
    OneIsMemtable(e1);
    OneIsMemtable(e2);
    OneIsMemtable(e3);
    var items := [Item(e1, d.last + 1), Item(e2, d.last + 2), Item(e3, d.last + 3)];
    var t := Built([e1, e2, e3], d.last + 3, h);
    TripleItems(e1, e2, e3, d.last + 1, h);
    TripleTables(d, e1, e2, e3, h);
    FreeMeets(d.files, e1.key, e3.key);
    RemainingAll(d.files, []);
    Round(d, n1, n2, [e1], [e2], [e3], [], e1.key, e3.key, items, [t], d.files, h);
    OneNews(1, d.last + 3, t, h);
    FileIs(1, d.last + 4, d.last + 3, [e1, e2, e3], h);
    OneMoreCounts(d.files, n1, n2, File(1, d.last + 4, t));
  }

  lemma FileIs(level: nat, name: nat, time: nat, es: seq<Entry>, h: Hash)
    ensures FileOf(level, name, time, es, h) == File(level, name, Built(es, time, h))
  {
  }

  lemma OneNews(level: nat, last: nat, t: Table, h: Hash)
    requires level > 0
    ensures Step(level - 1, [], [], 0, 0, false, [], [t]).News(last) == [File(level, last + 1, t)]
  {
  }

  lemma TripleTables(d: Db, e1: Entry, e2: Entry, e3: Entry, h: Hash)
    requires e1.key < e2.key < e3.key <= KEY_MAX && e1.len > 0 && e2.len > 0 && e3.len > 0
    ensures var fs := Fresh(d, [e1], [e2], [e3], h); var ts := TablesOf(fs + []);
      && Spans(fs, e1.key, e3.key)
      && |ts| == 3 && ts[0].time == d.last + 1 && ts[1].time == d.last + 2 && ts[2].time == d.last + 3
      && ts[0].entries == [e1] && ts[1].entries == [e2] && ts[2].entries == [e3]
  {
    OneEntry(0, d.last + 1, d.last + 1, e1, h);
    OneEntry(0, d.last + 2, d.last + 2, e2, h);
    OneEntry(0, d.last + 3, d.last + 3, e3, h);
    hide FileOf;
    var fs := Fresh(d, [e1], [e2], [e3], h);
    assert fs + [] == fs;
    assert fs[0] in fs && fs[2] in fs;
  }

  lemma FreeMeets(files: seq<File>, lo: nat, hi: nat)
    requires Free(files, lo, hi)
    ensures Meets(files, 0, [], lo, hi)
  {
    hide Touches;
  }

  // ---------- Level 1 with one table too many ----------

  /** The compaction of level 1 that moves its oldest table down. */
  lemma Overflow(d: Db, n2: nat, x: File, high: seq<File>, items: seq<Item>, tables: seq<Table>, keep: seq<File>, h: Hash)
    requires Reachable(d, h) && Counts(d.files, 5, n2) && d.tot <= 2
    requires x in d.files && x.level == 1 && |x.table.entries| > 0
    requires forall f | f in d.files && f.level == 1 && |f.table.entries| > 0 :: Older(x, f)
    requires Meets(d.files, 1, high, x.table.MinKey(), x.table.MaxKey())
    requires Sorts(items, TablesOf([x] + high)) && Formed(tables, items, h)
    requires keep == Remaining(d.files, [x] + high)
    ensures Reachable(Db(keep + Step(1, [], [], 0, 0, false, [], tables).News(d.last), d.last + |tables|, 2), h)
  {
    hide *;
    var s := Step(1, [x], high, x.table.MinKey(), x.table.MaxKey(), true, items, tables);
    OldestIsPicked(d.files, n2, x);
    NamesAreDifferent(d, h);
    XApart(d.files, x, high, s.keyMin, s.keyMax);
    CandsIs(s);
    CompactsOn(d, s, h, keep);
    SameNews(s, Step(1, [], [], 0, 0, false, [], tables), d.last);
  }

  lemma OldestIsPicked(files: seq<File>, n2: nat, x: File)
    requires Counts(files, 5, n2) && x in files && x.level == 1 && |x.table.entries| > 0
    requires forall f | f in files && f.level == 1 && |f.table.entries| > 0 :: Older(x, f)
    ensures Picks(files, 1, [x]) && Spans([x], x.table.MinKey(), x.table.MaxKey())
    ensures Overfull(files, 1) && forall l: nat | l < 1 :: !Overfull(files, l)
  {
    SmallPowers();
    hide CountLevel, Older;
    assert x in [x];
  }

  lemma XApart(files: seq<File>, x: File, high: seq<File>, keyMin: nat, keyMax: nat)
    requires NamesDiffer(files) && Meets(files, 1, high, keyMin, keyMax) && x.level == 1 && x in files
    ensures NamesDiffer([x] + high)
  {
    var i :| 0 <= i < |files| && files[i] == x;
    forall j | 0 <= j < |high| ensures x.name != high[j].name {
      assert high[j] in high;
      var k :| 0 <= k < |files| && files[k] == high[j];
      assert i != k;
    }
  }

  lemma NamesAreDifferent(d: Db, h: Hash)
    requires Reachable(d, h)
    ensures NamesDiffer(d.files)
  {
    ReachableIsLevelled(d, h);
  }
}

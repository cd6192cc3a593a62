/**
  The runs of the store: the lists of tables that calls of save lead to, starting from none.
 */
module LsmRuns {
  import opened LsmTable
  import opened Options
  import opened LsmMerge
  import opened LsmLevels
  import opened Powers

  // ---------- Counting tables per level ----------

  function CountLevel(files: seq<File>, level: nat): (n: nat)
    ensures n <= |files|
  {
    if |files| == 0 then 0 else (if files[0].level == level then 1 else 0) + CountLevel(files[1..], level)
  }

  lemma {:induction false} CountAppend(a: seq<File>, b: seq<File>, level: nat)
    ensures CountLevel(a + b, level) == CountLevel(a, level) + CountLevel(b, level)
  {
    if |a| == 0 {
      assert a + b == b;
    } else {
      assert (a + b)[1..] == a[1..] + b;
      CountAppend(a[1..], b, level);
    }
  }

  lemma {:induction false} CountNone(files: seq<File>, level: nat)
    requires forall f | f in files :: f.level != level
    ensures CountLevel(files, level) == 0
  {
    if |files| > 0 {
      assert files[0] in files && forall f | f in files[1..] :: f in files;
      CountNone(files[1..], level);
    }
  }

  lemma {:induction false} CountAll(files: seq<File>, level: nat)
    requires forall f | f in files :: f.level == level
    ensures CountLevel(files, level) == |files|
  {
    if |files| > 0 {
      assert files[0] in files && forall f | f in files[1..] :: f in files;
      CountAll(files[1..], level);
    }
  }

  // ---------- One flush, one compaction ----------

  /** The list of files, the last file number and the deepest level so far. */
  datatype Db = Db(files: seq<File>, last: nat, tot: nat)

  const EMPTY := Db([], 0, 0)

  ghost predicate Overfull(files: seq<File>, level: nat) { CountLevel(files, level) > 2 * Pow2(level) }

  ghost predicate InLimits(files: seq<File>) {
    forall l: nat :: !Overfull(files, l)
  }

  ghost predicate IsMemtable(es: seq<Entry>) {
    Sorted(es) && 0 < |es| <= MAX_NUM && es[|es| - 1].key <= KEY_MAX
  }

  /** SSTableGenerator. */
  ghost function Flushed(d: Db, es: seq<Entry>, h: Hash): Db {
    Db(d.files + [File(0, d.last + 1, Built(es, d.last + 1, h))], d.last + 1, d.tot)
  }

  /** a is not behind b in the order in which tables are chosen. */
  predicate Older(a: File, b: File)
    requires |a.table.entries| > 0 && |b.table.entries| > 0
  {
    a.table.time < b.table.time || (a.table.time == b.table.time && a.table.MinKey() <= b.table.MinKey())
  }

  /** The order is by times, ties by smallest keys; two tables tie in both only if they agree in both. */
  lemma OlderIsOrder(a: File, b: File)
    requires |a.table.entries| > 0 && |b.table.entries| > 0
    ensures Older(a, b) || Older(b, a)
    ensures Older(a, b) && Older(b, a) <==> a.table.time == b.table.time && a.table.MinKey() == b.table.MinKey()
    ensures a.table.time < b.table.time ==> !Older(b, a)
  {
  }

  /** The first flush of all makes table 1 of level 0, with time 1. */
  lemma FirstFlush(es: seq<Entry>, h: Hash)
    ensures Flushed(EMPTY, es, h) == Db([File(0, 1, Built(es, 1, h))], 1, 0)
  {
  }

  /** The files that are merged down: all of level 0, the first ones in that order of a deeper level. */
  ghost predicate Picks(files: seq<File>, level: nat, low: seq<File>) {
    && NamesDiffer(low) && (forall c | c in low :: c in files && c.level == level)
    && |low| == (if level == 0 then CountLevel(files, 0) else CountLevel(files, level) - 2 * Pow2(level))
    && forall f, c | f in files && f.level == level && f !in low && c in low && |f.table.entries| > 0 && |c.table.entries| > 0 ::
         level > 0 && Older(c, f)
  }

  /** keyMin and keyMax are the smallest and the largest key of the files. */
  ghost predicate Spans(low: seq<File>, keyMin: nat, keyMax: nat) {
    && (forall c | c in low && |c.table.entries| > 0 :: keyMin <= c.table.MinKey() && c.table.MaxKey() <= keyMax)
    && (exists c :: c in low && |c.table.entries| > 0 && c.table.MinKey() == keyMin)
    && (exists c :: c in low && |c.table.entries| > 0 && c.table.MaxKey() == keyMax)
  }

  /** The list without some files. */
  function Remaining(files: seq<File>, gone: seq<File>): (r: seq<File>)
    ensures forall f :: f in r <==> f in files && f !in gone
  {
    if files == [] then []
    else
      assert files == [files[0]] + files[1..];
      (if files[0] in gone then [] else [files[0]]) + Remaining(files[1..], gone)
  }

  /** compaction(s.level), for a level that is too full. */
  ghost predicate Compacted(d: Db, s: Step, h: Hash, d': Db) {
    && Overfull(d.files, s.level)
    && Picks(d.files, s.level, s.low) && Spans(s.low, s.keyMin, s.keyMax)
    && Touched(d.files, h, s.level, s.low, s.high, s.keyMin, s.keyMax) && NamesDiffer(s.Cands())
    && (s.drop <==> d.tot <= s.level + 1)
    && Merged(TablesOf(s.Cands()), s.drop, s.items, KEY_MAX + 1) && Formed(s.tables, s.items, h)
    && d'.files == Remaining(d.files, s.Cands()) + s.News(d.last)
    && d'.last == d.last + |s.tables| && d'.tot == if d.tot < s.level + 1 then s.level + 1 else d.tot
  }

  // ---------- Runs ----------

  /** save flushes when all levels are within their limits, and compacts the shallowest level that is not. */
  ghost predicate Next(d: Db, d': Db, h: Hash) {
    || (InLimits(d.files) && exists es :: IsMemtable(es) && d' == Flushed(d, es, h))
    || (exists s :: Compacted(d, s, h, d') && forall l: nat | l < s.level :: !Overfull(d.files, l))
  }

  ghost predicate IsRun(tr: seq<Db>, h: Hash) {
    && |tr| > 0 && tr[0] == EMPTY
    && forall i | 0 <= i < |tr| - 1 :: Next(tr[i], tr[i + 1], h)
  }

  /** Some sequence of saves leads to this state, or passes through it. */
  ghost predicate Reachable(d: Db, h: Hash) {
    exists tr :: IsRun(tr, h) && tr[|tr| - 1] == d
  }

  lemma EmptyIsReachable(h: Hash)
    ensures Reachable(EMPTY, h)
  {
    assert IsRun([EMPTY], h);
  }

  lemma NextIsReachable(d: Db, d': Db, h: Hash)
    requires Reachable(d, h) && Next(d, d', h)
    ensures Reachable(d', h)
  {
    hide Next;
    var tr :| IsRun(tr, h) && tr[|tr| - 1] == d;
    var tr' := tr + [d'];
    assert forall i | 0 <= i < |tr'| - 1 :: Next(tr'[i], tr'[i + 1], h);
    assert IsRun(tr', h);
  }

  ghost predicate DbOk(d: Db, h: Hash) { Levelled(d.files, d.last, d.tot, h) }

  // ---------- Runs keep the rules of the levels ----------

  lemma OldestPicked(d: Db, s: Step, h: Hash)
    requires DbOk(d, h) && Overfull(d.files, s.level) && Picks(d.files, s.level, s.low)
    ensures Oldest(d.files, s.level, s.low)
  {
    hide CountLevel, NamesDiffer, Pow2;
    assert |s.low| > 0 && s.low[0] in s.low;
    forall f | f in d.files ensures |f.table.entries| > 0 { FileIsOk(d, h, f); }
  }

  lemma FileIsOk(d: Db, h: Hash, f: File)
    requires DbOk(d, h) && f in d.files
    ensures f.table.Ok(h) && |f.table.entries| > 0 && f.name <= d.last
  {
  }

  lemma {:induction false} RemainingNames(files: seq<File>, gone: seq<File>)
    requires NamesDiffer(files)
    ensures NamesDiffer(Remaining(files, gone))
  {
    if files != [] {
      var rest := files[1..];
      assert NamesDiffer(rest);
      RemainingNames(rest, gone);
      var r := Remaining(rest, gone);
      forall j | 0 <= j < |r| ensures r[j].name != files[0].name {
        assert r[j] in rest;
        var k :| 0 <= k < |rest| && rest[k] == r[j];
        assert files[k + 1] == rest[k];
      }
      hide Remaining;
      RemainingStep(files, gone);
    }
  }

  lemma RemainingStep(files: seq<File>, gone: seq<File>)
    requires files != []
    ensures Remaining(files, gone) == (if files[0] in gone then [] else [files[0]]) + Remaining(files[1..], gone)
  {
  }

  lemma {:induction false} RemainingAppend(a: seq<File>, b: seq<File>, gone: seq<File>)
    ensures Remaining(a + b, gone) == Remaining(a, gone) + Remaining(b, gone)
  {
    if a == [] {
      assert a + b == b;
    } else {
      assert (a + b)[1..] == a[1..] + b;
      RemainingAppend(a[1..], b, gone);
    }
  }

  lemma {:induction false} RemainingAll(files: seq<File>, gone: seq<File>)
    requires forall f | f in files :: f !in gone
    ensures Remaining(files, gone) == files
  {
    if files != [] {
      assert files[0] in files && forall f | f in files[1..] :: f in files;
      RemainingAll(files[1..], gone);
    }
  }

  lemma {:induction false} RemainingNone(files: seq<File>, gone: seq<File>)
    requires forall f | f in files :: f in gone
    ensures Remaining(files, gone) == []
  {
    if files != [] {
      assert files[0] in files && forall f | f in files[1..] :: f in files;
      RemainingNone(files[1..], gone);
    }
  }

  lemma {:induction false} RemainingMore(files: seq<File>, gone: seq<File>, more: seq<File>)
    ensures Remaining(Remaining(files, gone), more) == Remaining(files, gone + more)
  {
    if files != [] {
      RemainingMore(files[1..], gone, more);
      var r := Remaining(files[1..], gone);
      if files[0] !in gone { assert ([files[0]] + r)[1..] == r; } else { assert [] + r == r; }
    }
  }

  lemma NamesAfter(d: Db, s: Step, h: Hash)
    requires DbOk(d, h)
    ensures NamesDiffer(Remaining(d.files, s.Cands()) + s.News(d.last))
  {
    var left, news := Remaining(d.files, s.Cands()), s.News(d.last);
    RemainingNames(d.files, s.Cands());
    hide Levelled, Remaining;
    forall i, j | 0 <= i < |left| && 0 <= j < |news| ensures left[i].name != news[j].name {
      assert left[i] in left;
      FileIsOk(d, h, left[i]);
    }
  }

  /** A compaction of a run is one in the sense of the levels. */
  lemma CompactedIs(d: Db, s: Step, h: Hash, d': Db)
    requires DbOk(d, h) && Compacted(d, s, h, d')
    ensures Compacts(d.files, d.last, d.tot, h, s, d'.files)
  {
    CompactedParts(d, s, h, d');
    hide *;
    OldestPicked(d, s, h);
    NamesAfter(d, s, h);
    CompactsOf(d, s, h, d');
  }

  lemma CompactedParts(d: Db, s: Step, h: Hash, d': Db)
    requires Compacted(d, s, h, d')
    ensures Overfull(d.files, s.level) && Picks(d.files, s.level, s.low)
    ensures d'.last == d.last + |s.tables| && d'.tot == if d.tot < s.level + 1 then s.level + 1 else d.tot
  {
    hide Overfull, Picks, Spans, Touched, Merged, Formed, NamesDiffer, Remaining;
  }

  lemma CompactsOf(d: Db, s: Step, h: Hash, d': Db)
    requires Compacted(d, s, h, d') && Oldest(d.files, s.level, s.low)
    requires NamesDiffer(Remaining(d.files, s.Cands()) + s.News(d.last))
    ensures Compacts(d.files, d.last, d.tot, h, s, d'.files)
  {
    hide Overfull, Picks, Oldest, Touched, Merged, Formed, NamesDiffer, Remaining;
  }

  lemma NextIsOk(d: Db, d': Db, h: Hash)
    requires DbOk(d, h) && Next(d, d', h)
    ensures DbOk(d', h)
  {
    hide Levelled, Compacted, Compacts, InLimits, Overfull, IsBuilt;
    if s :| Compacted(d, s, h, d') {
      CompactedIs(d, s, h, d');
      CompactedParts(d, s, h, d');
      CompactionKeepsLevels(d.files, d.last, d.tot, h, s, d'.files);
    } else {
      var es :| IsMemtable(es) && d' == Flushed(d, es, h);
      BuiltIsOk(es, d.last + 1, h);
      FlushKeepsLevels(d.files, d.last, d.tot, h, Built(es, d.last + 1, h));
    }
  }

  lemma {:induction false} RunIsOk(tr: seq<Db>, h: Hash, i: nat)
    requires IsRun(tr, h) && i < |tr|
    ensures DbOk(tr[i], h)
  {
    hide Next, DbOk;
    if i > 0 {
      RunIsOk(tr, h, i - 1);
      NextIsOk(tr[i - 1], tr[i], h);
    } else {
      EmptyIsOk(h);
    }
  }

  lemma EmptyIsOk(h: Hash)
    ensures DbOk(EMPTY, h)
  {
  }

  /** Every state of every run keeps the rules of the levels. */
  lemma ReachableIsLevelled(d: Db, h: Hash)
    requires Reachable(d, h)
    ensures Levelled(d.files, d.last, d.tot, h)
  {
    hide Next, Levelled;
    var tr :| IsRun(tr, h) && tr[|tr| - 1] == d;
    RunIsOk(tr, h, |tr| - 1);
  }
}

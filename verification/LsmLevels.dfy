/**
  Tables in levels: which version of a key counts, what flushing and compacting do to it, and
  what the levels keep.
 */
module LsmLevels {
  import opened LsmTable
  import opened Options
  import opened LsmMerge

  /** An element of sstFiles: the level, the file's number and the table in it. */
  datatype File = File(level: nat, name: nat, table: Table)

  // ---------- What the levels keep ----------

  predicate Apart(a: Table, b: Table)
    requires |a.entries| > 0 && |b.entries| > 0
  {
    a.MaxKey() < b.MinKey() || b.MaxKey() < a.MinKey()
  }

  ghost predicate FilesOk(files: seq<File>, last: nat, tot: nat, h: Hash) {
    forall f | f in files :: f.table.Ok(h) && f.name <= last && f.table.time <= last && f.level <= tot
  }

  ghost predicate NamesDiffer(files: seq<File>) {
    forall i, j | 0 <= i < j < |files| :: files[i].name != files[j].name
  }

  /** Below level 0, two tables of a level have no key range in common. */
  ghost predicate RangesApart(files: seq<File>, h: Hash) {
    forall f, g | f in files && g in files && f != g && f.level == g.level > 0 && f.table.Ok(h) && g.table.Ok(h) ::
      Apart(f.table, g.table)
  }

  ghost predicate FlushTimesDiffer(files: seq<File>) {
    forall f, g | f in files && g in files && f != g && f.level == g.level == 0 :: f.table.time != g.table.time
  }

  /** No table is newer than one at a shallower level. */
  ghost predicate NewerAbove(files: seq<File>) {
    forall f, g | f in files && g in files && f.level < g.level :: g.table.time <= f.table.time
  }

  ghost predicate Levelled(files: seq<File>, last: nat, tot: nat, h: Hash) {
    && FilesOk(files, last, tot, h) && NamesDiffer(files) && RangesApart(files, h)
    && FlushTimesDiffer(files) && NewerAbove(files)
  }

  // ---------- The version of a key that counts ----------

  predicate Holds(f: File, k: nat) { Lookup(f.table.entries, k).Some? }

  predicate Over(f: File, g: File) {
    f.level < g.level || (f.level == g.level == 0 && f.table.time > g.table.time)
  }

  /** The shallowest table that holds k; within level 0 the newest one. */
  ghost predicate IsVersion(files: seq<File>, k: nat, f: File) {
    f in files && Holds(f, k) && forall g | g in files && Holds(g, k) && g != f :: Over(f, g)
  }

  function Version(files: seq<File>, k: nat): (r: Option<File>)
    ensures r.Some? ==> r.value in files && Holds(r.value, k)
    ensures r.None? ==> forall f | f in files :: !Holds(f, k)
  {
    if |files| == 0 then None
    else
      var r, f := Version(files[..|files| - 1], k), files[|files| - 1];
      assert files == files[..|files| - 1] + [f];
      if Holds(f, k) && (r.None? || Over(f, r.value)) then Some(f) else r
  }

  /** At most one table of a deeper level holds a key. */
  lemma OneHolder(files: seq<File>, h: Hash, last: nat, tot: nat, f: File, g: File, k: nat)
    requires FilesOk(files, last, tot, h) && RangesApart(files, h)
    requires f in files && g in files && Holds(f, k) && Holds(g, k) && f.level == g.level > 0
    ensures f == g
  {
    HolderRange(f.table, h, k);
    HolderRange(g.table, h, k);
  }

  lemma HolderRange(t: Table, h: Hash, k: nat)
    requires t.Ok(h) && Lookup(t.entries, k).Some?
    ensures t.MinKey() <= k <= t.MaxKey()
  {
    HasIsLookup(t.entries, k);
    NoStoredKeyIsSkipped(t, h, k);
  }

  lemma Comparable(files: seq<File>, last: nat, tot: nat, h: Hash, k: nat, f: File, g: File)
    requires Levelled(files, last, tot, h) && f in files && g in files && f != g && Holds(f, k) && Holds(g, k)
    ensures Over(f, g) != Over(g, f)
  {
    if f.level == g.level > 0 { OneHolder(files, h, last, tot, f, g, k); }
  }

  lemma OverTransitive(f: File, g: File, e: File)
    requires Over(f, g) && Over(g, e)
    ensures Over(f, e)
  {
  }

  lemma {:induction false} VersionBeats(all: seq<File>, files: seq<File>, last: nat, tot: nat, h: Hash, k: nat, g: File)
    requires Levelled(all, last, tot, h) && forall f | f in files :: f in all
    requires g in files && Holds(g, k)
    ensures Version(files, k).Some? && (g == Version(files, k).value || Over(Version(files, k).value, g))
  {
    var before, f := files[..|files| - 1], files[|files| - 1];
    assert files == before + [f];
    var r := Version(before, k);
    hide Levelled, Over, Holds;
    if r.Some? && Holds(f, k) && f != r.value {
      Comparable(all, last, tot, h, k, f, r.value);
    }
    if g in before {
      VersionBeats(all, before, last, tot, h, k, g);
      if Over(f, r.value) && g != r.value { OverTransitive(f, r.value, g); }
    }
  }

  /** Where a key is held there is exactly one version that counts. */
  lemma VersionIsUnique(files: seq<File>, last: nat, tot: nat, h: Hash, k: nat)
    requires Levelled(files, last, tot, h)
    ensures forall f :: IsVersion(files, k, f) <==> Version(files, k) == Some(f)
  {
    hide Levelled, Over, Holds, Version;
    forall g | g in files && Holds(g, k)
      ensures Version(files, k).Some? && (g == Version(files, k).value || Over(Version(files, k).value, g))
    {
      VersionBeats(files, files, last, tot, h, k, g);
    }
    forall f | IsVersion(files, k, f) ensures Version(files, k) == Some(f) {
      var r := Version(files, k);
      if r.value != f { Comparable(files, last, tot, h, k, f, r.value); }
    }
  }

  /** What a reader sees of a key in the tables: the version's entry unless it is a deletion. */
  function Shown(files: seq<File>, k: nat): Option<Entry> {
    match Version(files, k)
    case None => None
    case Some(f) =>
      var e := Lookup(f.table.entries, k).value;
      if e.len > 0 then Some(e) else None
  }

  // ---------- Flushing the memtable ----------

  /** A file number above all others. */
  lemma NewName(files: seq<File>, n: File)
    requires NamesDiffer(files) && forall f | f in files :: f.name < n.name
    ensures NamesDiffer(files + [n])
  {
    forall i | 0 <= i < |files| ensures files[i].name < n.name { assert files[i] in files; }
  }

  lemma FlushKeepsLevels(files: seq<File>, last: nat, tot: nat, h: Hash, t: Table)
    requires Levelled(files, last, tot, h) && t.Ok(h) && t.time == last + 1
    ensures Levelled(files + [File(0, last + 1, t)], last + 1, tot, h)
  {
    var n := File(0, last + 1, t);
    hide Table.Ok, Apart;
    assert forall f | f in files :: f.name < n.name && f.table.time < n.table.time;
    NewName(files, n);
  }

  lemma FlushVersion(files: seq<File>, n: File, k: nat)
    requires n.level == 0 && forall f | f in files :: f.table.time < n.table.time
    ensures Version(files + [n], k) == if Holds(n, k) then Some(n) else Version(files, k)
  {
    assert (files + [n])[..|files|] == files;
  }

  /** A new table of level 0, stamped later than everything before, overrides what was there. */
  lemma FlushShows(files: seq<File>, last: nat, tot: nat, h: Hash, t: Table, k: nat)
    requires Levelled(files, last, tot, h) && t.Ok(h) && t.time == last + 1
    ensures Shown(files + [File(0, last + 1, t)], k) ==
              match Lookup(t.entries, k)
              case None => Shown(files, k)
              case Some(e) => if e.len > 0 then Some(e) else None
  {
    assert forall f | f in files :: f.table.time < t.time;
    hide Levelled, Version, Lookup;
    FlushVersion(files, File(0, last + 1, t), k);
  }

  // ---------- Compaction ----------

  /** All files of level 0, or files of the level that are no newer than those left behind. */
  ghost predicate Oldest(files: seq<File>, level: nat, low: seq<File>) {
    && |low| > 0 && (forall c | c in low :: c in files && c.level == level)
    && forall f, c | f in files && f.level == level && f !in low && c in low :: level > 0 && c.table.time <= f.table.time
  }

  predicate Touches(t: Table, keyMin: nat, keyMax: nat)
    requires |t.entries| > 0
  {
    !(t.MaxKey() < keyMin || keyMax < t.MinKey())
  }

  /** The files of the next level whose range meets the range of the chosen ones. */
  ghost predicate Touched(files: seq<File>, h: Hash, level: nat, low: seq<File>, high: seq<File>, keyMin: nat, keyMax: nat) {
    && (forall c | c in low && c.table.Ok(h) :: keyMin <= c.table.MinKey() && c.table.MaxKey() <= keyMax)
    && (forall c | c in high :: c in files)
    && forall f | f in files && f.table.Ok(h) :: f in high <==> f.level == level + 1 && Touches(f.table, keyMin, keyMax)
  }

  function TablesOf(cands: seq<File>): (ts: seq<Table>)
    ensures |ts| == |cands| && forall i | 0 <= i < |ts| :: ts[i] == cands[i].table
  {
    seq(|cands|, i requires 0 <= i < |cands| => cands[i].table)
  }

  /** Some file of low wins whenever one of them holds the key: it is newer or comes first. */
  lemma LowWins(files: seq<File>, last: nat, tot: nat, h: Hash, level: nat, low: seq<File>, high: seq<File>, k: nat, w: nat)
    requires Levelled(files, last, tot, h) && (forall c | c in low :: c in files && c.level == level)
    requires forall c | c in high :: c in files && c.level == level + 1
    requires var ts := TablesOf(low + high); w < |ts| && Winner(ts, k, |ts|) == w
    ensures forall g | g in low + high && Holds(g, k) && g != (low + high)[w] :: Over((low + high)[w], g)
  {
    var cands := low + high;
    var ts := TablesOf(cands);
    WinnerIsNewest(ts, k, |ts|);
    var f := cands[w];
    forall g | g in cands && Holds(g, k) && g != f ensures Over(f, g) {
      var i :| 0 <= i < |cands| && cands[i] == g;
      assert ts[i] == g.table && ts[w] == f.table;
      WinnerOver(files, last, tot, h, level, f, g, k, i < w, w < |low|, i < |low|);
    }
  }

  lemma WinnerOver(files: seq<File>, last: nat, tot: nat, h: Hash, level: nat, f: File, g: File, k: nat,
                   before: bool, fLow: bool, gLow: bool)
    requires Levelled(files, last, tot, h) && f in files && g in files && f != g && Holds(f, k) && Holds(g, k)
    requires f.level == (if fLow then level else level + 1) && g.level == (if gLow then level else level + 1)
    requires g.table.time <= f.table.time && (before ==> g.table.time < f.table.time)
    requires gLow && !fLow ==> before
    ensures Over(f, g)
  {
    if f.level == g.level > 0 { OneHolder(files, h, last, tot, f, g, k); }
  }

  // ---------- The tables a merge writes ----------

  lemma {:induction false} EntryIsItem(tables: seq<Table>, items: seq<Item>, h: Hash, t: Table, j: nat) returns (i: nat)
    requires Formed(tables, items, h) && t in tables && j < |t.entries|
    ensures i < |items| && items[i].entry == t.entries[j]
    decreases |items|
  {
    hide Formed, Table.Ok, MaxTime, IsBuilt;
    FormedStep(tables, items, h);
    var n := GroupSize(items);
    if t == tables[0] {
      i := j;
      assert items[..n][j] == items[j];
    } else {
      assert t in tables[1..];
      i := EntryIsItem(tables[1..], items[n..], h, t, j);
      i := i + n;
    }
  }

  lemma {:induction false} ItemIsEntry(tables: seq<Table>, items: seq<Item>, h: Hash, i: nat) returns (t: Table, j: nat)
    requires Formed(tables, items, h) && i < |items|
    ensures t in tables && j < |t.entries| && t.entries[j] == items[i].entry
    decreases |items|
  {
    hide Formed, Table.Ok, MaxTime, IsBuilt;
    FormedSome(tables, items, h);
    FormedStep(tables, items, h);
    var n := GroupSize(items);
    if i < n {
      t, j := tables[0], i;
      assert items[..n][i] == items[i];
    } else {
      t, j := ItemIsEntry(tables[1..], items[n..], h, i - n);
      assert t in tables[1..];
    }
  }

  lemma {:induction false} TimeIsItemTime(tables: seq<Table>, items: seq<Item>, h: Hash, t: Table) returns (i: nat)
    requires Formed(tables, items, h) && t in tables
    ensures i < |items| && items[i].time == t.time && t.Ok(h)
    decreases |items|
  {
    hide Formed, Table.Ok, GroupSize, EntriesOf, MaxTime;
    FormedStep(tables, items, h);
    var n := GroupSize(items);
    if t == tables[0] {
      i :| 0 <= i < |items[..n]| && items[..n][i].time == t.time;
    } else {
      assert t in tables[1..];
      i := TimeIsItemTime(tables[1..], items[n..], h, t);
      i := i + n;
    }
  }

  ghost predicate Ascending(items: seq<Item>) {
    forall i, j | 0 <= i < j < |items| :: items[i].entry.key < items[j].entry.key
  }

  lemma FirstBelowRest(tables: seq<Table>, items: seq<Item>, h: Hash, b: nat)
    requires Formed(tables, items, h) && Ascending(items) && 0 < b < |tables|
    ensures tables[0].Ok(h) && tables[b].Ok(h) && tables[0].MaxKey() < tables[b].MinKey()
  {
    hide Formed, GroupSize, MaxTime, IsTableOf, Table.Ok;
    FormedStep(tables, items, h);
    var n := GroupSize(items);
    var t := tables[b];
    assert t in tables[1..];
    var x := TimeIsItemTime(tables[1..], items[n..], h, t);
    TableIs(tables[0], items[..n], h);
    OkNonempty(t, h);
    var i := EntryIsItem(tables[1..], items[n..], h, t, 0);
    assert t.entries[0] == items[n + i].entry;
  }

  lemma TableIs(t: Table, items: seq<Item>, h: Hash)
    requires IsTableOf(t, items, h)
    ensures t.Ok(h) && |t.entries| == |items| > 0 && forall i | 0 <= i < |items| :: t.entries[i] == items[i].entry
  {
    hide IsBuilt, MaxTime;
  }

  /** The written tables follow one another in key order. */
  lemma {:induction false} TablesAscend(tables: seq<Table>, items: seq<Item>, h: Hash, a: nat, b: nat)
    requires Formed(tables, items, h) && Ascending(items) && a < b < |tables|
    ensures tables[a].Ok(h) && tables[b].Ok(h) && tables[a].MaxKey() < tables[b].MinKey()
    decreases |items|
  {
    hide Formed, Table.Ok, GroupSize, IsTableOf;
    if a > 0 {
      FormedStep(tables, items, h);
      var n := GroupSize(items);
      assert forall i, j | 0 <= i < j < |items[n..]| :: items[n..][i].entry.key < items[n..][j].entry.key;
      TablesAscend(tables[1..], items[n..], h, a - 1, b - 1);
    } else {
      FirstBelowRest(tables, items, h, b);
    }
  }

  // ---------- One compaction ----------

  /** What compaction(level) chooses, merges and writes. */
  datatype Step = Step(level: nat, low: seq<File>, high: seq<File>, keyMin: nat, keyMax: nat, drop: bool,
                       items: seq<Item>, tables: seq<Table>)
  {
    function Cands(): seq<File> { low + high }

    /** The new files: numbered on from last, one level down. */
    function News(last: nat): (fs: seq<File>)
      ensures |fs| == |tables|
      ensures forall i | 0 <= i < |fs| :: fs[i] == File(level + 1, last + 1 + i, tables[i])
    {
      seq(|tables|, i requires 0 <= i < |tables| => File(level + 1, last + 1 + i, tables[i]))
    }
  }

  ghost predicate Chosen(files: seq<File>, h: Hash, s: Step) {
    Oldest(files, s.level, s.low) && Touched(files, h, s.level, s.low, s.high, s.keyMin, s.keyMax)
  }

  ghost predicate Compacts(files: seq<File>, last: nat, tot: nat, h: Hash, s: Step, files': seq<File>) {
    && Chosen(files, h, s)
    && (s.drop <==> tot <= s.level + 1)
    && Merged(TablesOf(s.Cands()), s.drop, s.items, KEY_MAX + 1) && Formed(s.tables, s.items, h)
    && NamesDiffer(files')
    && forall f :: f in files' <==> (f in files && f !in s.Cands()) || f in s.News(last)
  }

  /** The parts of a compaction. */
  lemma CompactsIs(files: seq<File>, last: nat, tot: nat, h: Hash, s: Step, files': seq<File>)
    requires Compacts(files, last, tot, h, s, files')
    ensures Chosen(files, h, s) && (s.drop <==> tot <= s.level + 1)
    ensures Merged(TablesOf(s.Cands()), s.drop, s.items, KEY_MAX + 1) && Formed(s.tables, s.items, h) && NamesDiffer(files')
    ensures forall f :: f in files' <==> (f in files && f !in s.Cands()) || f in s.News(last)
  {
    hide Chosen, Merged, Formed, NamesDiffer;
  }

  lemma CandsAre(files: seq<File>, h: Hash, s: Step, last: nat, tot: nat)
    requires Chosen(files, h, s) && FilesOk(files, last, tot, h)
    ensures forall c | c in s.low :: c in files && c.level == s.level
    ensures forall c | c in s.high :: c in files && c.level == s.level + 1
    ensures forall c | c in s.Cands() :: c in files && (c.level == s.level || c.level == s.level + 1)
  {
  }

  /** The new files hold exactly what the merge keeps. */
  lemma NewHolds(s: Step, h: Hash, last: nat, k: nat)
    requires Merged(TablesOf(s.Cands()), s.drop, s.items, KEY_MAX + 1) && Formed(s.tables, s.items, h) && k <= KEY_MAX
    ensures var kept := Kept(TablesOf(s.Cands()), s.drop, k);
      && (kept.Some? ==> exists n :: n in s.News(last) && Holds(n, k))
      && forall n | n in s.News(last) && Holds(n, k) ::
           kept.Some? && Lookup(n.table.entries, k) == Some(kept.value.entry)
  {
    var kept := Kept(TablesOf(s.Cands()), s.drop, k);
    hide Kept, Formed;
    if kept.Some? {
      assert HasItem(s.items, k);
      var i :| 0 <= i < |s.items| && s.items[i].entry.key == k;
      var t, j := ItemIsEntry(s.tables, s.items, h, i);
      HasIsLookup(t.entries, k);
      var x :| 0 <= x < |s.tables| && s.tables[x] == t;
      assert s.News(last)[x] in s.News(last) && Holds(s.News(last)[x], k);
    }
    forall n | n in s.News(last) && Holds(n, k)
      ensures kept.Some? && Lookup(n.table.entries, k) == Some(kept.value.entry)
    {
      var e := Lookup(n.table.entries, k).value;
      var j :| 0 <= j < |n.table.entries| && n.table.entries[j] == e;
      var x :| 0 <= x < |s.tables| && s.News(last)[x] == n;
      assert s.tables[x] in s.tables;
      var i := EntryIsItem(s.tables, s.items, h, n.table, j);
    }
  }

  /** The candidate that wins k beats every other candidate that holds k. */
  lemma CandidateWins(files: seq<File>, last: nat, tot: nat, h: Hash, s: Step, k: nat) returns (f: File)
    requires Levelled(files, last, tot, h) && Chosen(files, h, s)
    requires Won(TablesOf(s.Cands()), k).Some?
    ensures f in s.Cands() && f in files && Holds(f, k)
    ensures Won(TablesOf(s.Cands()), k) == Some(Item(Lookup(f.table.entries, k).value, f.table.time))
    ensures forall g | g in s.Cands() && Holds(g, k) && g != f :: Over(f, g)
  {
    CandsAre(files, h, s, last, tot);
    var ts := TablesOf(s.Cands());
    var w := Winner(ts, k, |ts|);
    f := s.Cands()[w];
    hide Levelled, Chosen, Over;
    LowWins(files, last, tot, h, s.level, s.low, s.high, k, w);
  }

  lemma NoCandidate(s: Step, k: nat)
    requires Won(TablesOf(s.Cands()), k).None?
    ensures forall g | g in s.Cands() :: !Holds(g, k)
  {
    var ts := TablesOf(s.Cands());
    WinnerIsNewest(ts, k, |ts|);
    forall g | g in s.Cands() ensures !Holds(g, k) {
      var i :| 0 <= i < |ts| && s.Cands()[i] == g;
      assert ts[i] == g.table;
    }
  }

  /** A file left behind that holds a key of a chosen file lies deeper than both levels. */
  lemma LeftBehindIsDeeper(files: seq<File>, last: nat, tot: nat, h: Hash, s: Step, k: nat, f: File, g: File)
    requires Levelled(files, last, tot, h) && Chosen(files, h, s)
    requires f in s.Cands() && Holds(f, k) && g in files && g !in s.Cands() && Holds(g, k) && Over(f, g)
    ensures g.level > s.level + 1
  {
    CandsAre(files, h, s, last, tot);
    HolderRange(f.table, h, k);
    HolderRange(g.table, h, k);
    if g.level == s.level + 1 {
      if f.level == s.level + 1 { OneHolder(files, h, last, tot, f, g, k); }
      assert f in s.low && Touches(g.table, s.keyMin, s.keyMax);
    } else if g.level == s.level {
      if s.level > 0 { OneHolder(files, h, last, tot, f, g, k); }
    }
  }

  /** The version after the compaction is an untouched file or one of the new ones. */
  lemma VersionAfter(files: seq<File>, last: nat, tot: nat, h: Hash, s: Step, files': seq<File>, k: nat, f: File)
    requires Levelled(files, last, tot, h) && Compacts(files, last, tot, h, s, files') && k <= KEY_MAX
    requires IsVersion(files, k, f) && f !in s.Cands()
    ensures IsVersion(files', k, f)
  {
    CandsAre(files, h, s, last, tot);
    forall g | g in files' && Holds(g, k) && g != f ensures Over(f, g) {
      if g in s.News(last) {
        NewHolds(s, h, last, k);
        var w := CandidateWins(files, last, tot, h, s, k);
        UntouchedIsShallower(files, last, tot, h, s, k, f, w);
      }
    }
  }

  lemma UntouchedIsShallower(files: seq<File>, last: nat, tot: nat, h: Hash, s: Step, k: nat, f: File, w: File)
    requires Levelled(files, last, tot, h) && Chosen(files, h, s)
    requires IsVersion(files, k, f) && f !in s.Cands() && w in s.Cands() && w in files && Holds(w, k)
    ensures f.level < s.level + 1
  {
    CandsAre(files, h, s, last, tot);
    assert Over(f, w);
  }

  /**
    A compaction changes what no reader sees: every key shows the same entry before and after.
   */
  lemma CompactionShows(files: seq<File>, last: nat, tot: nat, h: Hash, s: Step, files': seq<File>, last': nat, tot': nat, k: nat)
    requires Levelled(files, last, tot, h) && Compacts(files, last, tot, h, s, files') && k <= KEY_MAX
    requires Levelled(files', last', tot', h)
    ensures Shown(files', k) == Shown(files, k)
  {
    hide Levelled, Compacts, IsVersion, Version, Holds, Over;
    VersionIsUnique(files, last, tot, h, k);
    VersionIsUnique(files', last', tot', h, k);
    var v := Version(files, k);
    if v.None? {
      NothingAppears(files, last, tot, h, s, files', k);
    } else if v.value !in s.Cands() {
      VersionAfter(files, last, tot, h, s, files', k, v.value);
    } else {
      MovedVersion(files, last, tot, h, s, files', k, v.value);
      NoneVersion(files', k);
    }
  }

  lemma NoneVersion(files: seq<File>, k: nat)
    ensures Version(files, k).None? <==> forall f | f in files :: !Holds(f, k)
  {
  }

  lemma NothingAppears(files: seq<File>, last: nat, tot: nat, h: Hash, s: Step, files': seq<File>, k: nat)
    requires Levelled(files, last, tot, h) && Compacts(files, last, tot, h, s, files') && k <= KEY_MAX
    requires Version(files, k).None?
    ensures Version(files', k).None?
  {
    CandsAre(files, h, s, last, tot);
    NewHolds(s, h, last, k);
    var won := Won(TablesOf(s.Cands()), k);
    if won.Some? {
      var w := CandidateWins(files, last, tot, h, s, k);
    }
  }

  /** A chosen version moves into a new file, or is dropped as a deletion that hides nothing. */
  lemma MovedVersion(files: seq<File>, last: nat, tot: nat, h: Hash, s: Step, files': seq<File>, k: nat, f: File)
    requires Levelled(files, last, tot, h) && Compacts(files, last, tot, h, s, files') && k <= KEY_MAX
    requires IsVersion(files, k, f) && f in s.Cands()
    ensures var e := Lookup(f.table.entries, k).value;
      if s.drop && e.len == 0 then forall g | g in files' :: !Holds(g, k)
      else exists n :: IsVersion(files', k, n) && Lookup(n.table.entries, k) == Some(e)
  {
    hide Levelled;
    var e := Lookup(f.table.entries, k).value;
    WinnerIsVersion(files, last, tot, h, s, k, f);
    NewHolds(s, h, last, k);
    forall g | g in files' && g !in s.News(last) && Holds(g, k) ensures g.level > s.level + 1 && tot > s.level + 1 {
      LeftBehindIsDeeper(files, last, tot, h, s, k, f, g);
      LevelWithin(files, last, tot, h, g);
    }
    if !(s.drop && e.len == 0) {
      var n :| n in s.News(last) && Holds(n, k);
      OnlyNewHolder(files, last, tot, h, s, files', k, n);
      assert IsVersion(files', k, n);
    }
  }

  lemma LevelWithin(files: seq<File>, last: nat, tot: nat, h: Hash, g: File)
    requires Levelled(files, last, tot, h) && g in files
    ensures g.level <= tot
  {
  }

  lemma WinnerIsVersion(files: seq<File>, last: nat, tot: nat, h: Hash, s: Step, k: nat, f: File)
    requires Levelled(files, last, tot, h) && Chosen(files, h, s)
    requires IsVersion(files, k, f) && f in s.Cands()
    ensures Won(TablesOf(s.Cands()), k) == Some(Item(Lookup(f.table.entries, k).value, f.table.time))
  {
    if Won(TablesOf(s.Cands()), k).None? { NoCandidate(s, k); }
    var w := CandidateWins(files, last, tot, h, s, k);
  }

  /** Of the new files only one holds a key. */
  lemma OnlyNewHolder(files: seq<File>, last: nat, tot: nat, h: Hash, s: Step, files': seq<File>, k: nat, n: File)
    requires Compacts(files, last, tot, h, s, files') && n in s.News(last) && Holds(n, k)
    ensures forall g | g in s.News(last) && Holds(g, k) :: g == n
  {
    hide Compacts, Ascending, Table.Ok, Chosen, NamesDiffer, Merged, Formed, Lookup;
    CompactsIs(files, last, tot, h, s, files');
    MergedAscends(s);
    var a :| 0 <= a < |s.tables| && s.News(last)[a] == n;
    forall b | 0 <= b < |s.tables| && Holds(s.News(last)[b], k) ensures a == b {
      if a < b { HeldOnce(s, h, k, a, b); }
      if b < a { HeldOnce(s, h, k, b, a); }
    }
  }

  lemma HeldOnce(s: Step, h: Hash, k: nat, a: nat, b: nat)
    requires Formed(s.tables, s.items, h) && Ascending(s.items) && a < b < |s.tables|
    ensures Lookup(s.tables[a].entries, k).None? || Lookup(s.tables[b].entries, k).None?
  {
    hide Formed, Ascending, Table.Ok, Lookup;
    TablesAscend(s.tables, s.items, h, a, b);
    if Lookup(s.tables[a].entries, k).Some? && Lookup(s.tables[b].entries, k).Some? {
      HolderRange(s.tables[a], h, k);
      HolderRange(s.tables[b], h, k);
    }
  }

  // ---------- What a compaction keeps of the levels ----------

  /** A new file carries the time of one of the candidates. */
  lemma NewTime(files: seq<File>, last: nat, tot: nat, h: Hash, s: Step, n: File) returns (c: File)
    requires Levelled(files, last, tot, h) && Chosen(files, h, s) && n in s.News(last)
    requires Merged(TablesOf(s.Cands()), s.drop, s.items, KEY_MAX + 1) && Formed(s.tables, s.items, h)
    ensures n.table.Ok(h) && c in s.Cands() && c in files && c.table.time == n.table.time <= last
  {
    CandsAre(files, h, s, last, tot);
    var x :| 0 <= x < |s.tables| && s.News(last)[x] == n;
    assert s.tables[x] in s.tables;
    var i := TimeIsItemTime(s.tables, s.items, h, n.table);
    var ts := TablesOf(s.Cands());
    CandsOk(files, last, tot, h, s);
    ItemTimes(ts, s.drop, s.items, KEY_MAX + 1, h, i);
    var j :| 0 <= j < |ts| && ts[j].time == s.items[i].time;
    c := s.Cands()[j];
  }

  lemma CandsOk(files: seq<File>, last: nat, tot: nat, h: Hash, s: Step)
    requires Levelled(files, last, tot, h) && Chosen(files, h, s)
    ensures AllOk(TablesOf(s.Cands()), h)
  {
    CandsAre(files, h, s, last, tot);
    forall i | 0 <= i < |s.Cands()| ensures s.Cands()[i].table.Ok(h) { assert s.Cands()[i] in s.Cands(); }
  }

  /** Every key of a new file was held by a candidate. */
  lemma NewKeyWasHeld(files: seq<File>, last: nat, tot: nat, h: Hash, s: Step, n: File, j: nat) returns (c: File)
    requires Levelled(files, last, tot, h) && Chosen(files, h, s) && n in s.News(last) && j < |n.table.entries|
    requires Merged(TablesOf(s.Cands()), s.drop, s.items, KEY_MAX + 1) && Formed(s.tables, s.items, h)
    ensures c in s.Cands() && c in files && Holds(c, n.table.entries[j].key)
    ensures Lookup(c.table.entries, n.table.entries[j].key) == Some(n.table.entries[j])
  {
    hide Levelled, Chosen, Merged, Formed, Lookup, Kept, Won;
    var x :| 0 <= x < |s.tables| && s.News(last)[x] == n;
    assert s.tables[x] in s.tables;
    var i := EntryIsItem(s.tables, s.items, h, n.table, j);
    ItemWon(TablesOf(s.Cands()), s.drop, s.items, i);
    c := CandidateWins(files, last, tot, h, s, n.table.entries[j].key);
  }

  lemma ItemWon(cands: seq<Table>, drop: bool, items: seq<Item>, i: nat)
    requires Merged(cands, drop, items, KEY_MAX + 1) && i < |items|
    ensures Won(cands, items[i].entry.key) == Some(items[i])
  {
    hide Won;
    assert Kept(cands, drop, items[i].entry.key) == Some(items[i]);
  }

  /** The entries that are stored anywhere. */
  ghost function StoredEntries(files: seq<File>): set<Entry> {
    set f, e | f in files && e in f.table.entries :: e
  }

  /** A compaction makes no entry up. */
  lemma CompactionKeepsEntries(files: seq<File>, last: nat, tot: nat, h: Hash, s: Step, files': seq<File>)
    requires Levelled(files, last, tot, h) && Compacts(files, last, tot, h, s, files')
    ensures StoredEntries(files') <= StoredEntries(files)
  {
    hide Levelled, Merged, Formed, Kept;
    forall f, e | f in files' && e in f.table.entries ensures e in StoredEntries(files) {
      if f !in files {
        var j :| 0 <= j < |f.table.entries| && f.table.entries[j] == e;
        NewEntryWasHeld(files, last, tot, h, s, f, j);
      }
    }
  }

  lemma NewEntryWasHeld(files: seq<File>, last: nat, tot: nat, h: Hash, s: Step, n: File, j: nat)
    requires Levelled(files, last, tot, h) && Chosen(files, h, s) && n in s.News(last) && j < |n.table.entries|
    requires Merged(TablesOf(s.Cands()), s.drop, s.items, KEY_MAX + 1) && Formed(s.tables, s.items, h)
    ensures n.table.entries[j] in StoredEntries(files)
  {
    var c := NewKeyWasHeld(files, last, tot, h, s, n, j);
    hide Levelled, Chosen, Merged, Formed, Lookup, Holds;
    var k := n.table.entries[j].key;
    var e := Lookup(c.table.entries, k).value;
    assert e == n.table.entries[j];
  }

  /** A file left on the next level lies wholly on one side of all candidates. */
  lemma Beside(files: seq<File>, last: nat, tot: nat, h: Hash, s: Step, g: File, c: File, k: nat)
    requires Levelled(files, last, tot, h) && Chosen(files, h, s)
    requires g in files && g !in s.Cands() && g.level == s.level + 1
    requires c in s.Cands() && c in files && Holds(c, k)
    ensures |g.table.entries| > 0
    ensures if g.table.MaxKey() < s.keyMin then g.table.MaxKey() < k else s.keyMax < g.table.MinKey() && k < g.table.MinKey()
  {
    CandsAre(files, h, s, last, tot);
    HolderRange(c.table, h, k);
    assert c.table.Ok(h) && g.table.Ok(h);
    assert !Touches(g.table, s.keyMin, s.keyMax);
    if c in s.high {
      assert Touches(c.table, s.keyMin, s.keyMax) && Apart(c.table, g.table);
      Bounds(g.table, h);
    }
  }

  lemma Bounds(t: Table, h: Hash)
    requires t.Ok(h)
    ensures t.MinKey() <= t.MaxKey()
  {
    if |t.entries| > 1 { assert t.entries[0].key < t.entries[|t.entries| - 1].key; }
  }

  lemma NewApartFromLeft(files: seq<File>, last: nat, tot: nat, h: Hash, s: Step, g: File, n: File)
    requires Levelled(files, last, tot, h) && Chosen(files, h, s) && n in s.News(last)
    requires Merged(TablesOf(s.Cands()), s.drop, s.items, KEY_MAX + 1) && Formed(s.tables, s.items, h)
    requires g in files && g !in s.Cands() && g.level == s.level + 1
    ensures |g.table.entries| > 0 && |n.table.entries| > 0 && Apart(g.table, n.table) && Apart(n.table, g.table)
  {
    hide Levelled, Chosen, Merged, Formed, Holds, Table.Ok;
    var c := NewTime(files, last, tot, h, s, n);
    OkNonempty(n.table, h);
    var first := NewKeyWasHeld(files, last, tot, h, s, n, 0);
    var final := NewKeyWasHeld(files, last, tot, h, s, n, |n.table.entries| - 1);
    Beside(files, last, tot, h, s, g, first, n.table.MinKey());
    Beside(files, last, tot, h, s, g, final, n.table.MaxKey());
  }

  lemma OkNonempty(t: Table, h: Hash)
    requires t.Ok(h)
    ensures |t.entries| > 0
  {
  }

  lemma NewApart(s: Step, last: nat, h: Hash, m: File, n: File)
    requires Formed(s.tables, s.items, h) && Ascending(s.items) && m in s.News(last) && n in s.News(last) && m != n
    ensures |m.table.entries| > 0 && |n.table.entries| > 0 && Apart(m.table, n.table)
  {
    hide Formed, Ascending, Table.Ok;
    var a :| 0 <= a < |s.tables| && s.News(last)[a] == m;
    var b :| 0 <= b < |s.tables| && s.News(last)[b] == n;
    if a < b {
      TablesAscend(s.tables, s.items, h, a, b);
      OkNonempty(m.table, h);
      OkNonempty(n.table, h);
    } else {
      TablesAscend(s.tables, s.items, h, b, a);
      OkNonempty(m.table, h);
      OkNonempty(n.table, h);
    }
  }

  lemma KeepsRanges(files: seq<File>, last: nat, tot: nat, h: Hash, s: Step, files': seq<File>)
    requires Levelled(files, last, tot, h) && Compacts(files, last, tot, h, s, files')
    ensures RangesApart(files', h)
  {
    hide Levelled, Apart, Chosen, Merged, Formed;
    forall f, g | f in files' && g in files' && f != g && f.level == g.level > 0 && f.table.Ok(h) && g.table.Ok(h)
      ensures Apart(f.table, g.table)
    {
      if f in s.News(last) && g in s.News(last) {
        MergedAscends(s);
        NewApart(s, last, h, f, g);
      } else if f in s.News(last) {
        NewApartFromLeft(files, last, tot, h, s, g, f);
      } else if g in s.News(last) {
        NewApartFromLeft(files, last, tot, h, s, f, g);
      } else {
        OldApart(files, last, tot, h, f, g);
      }
    }
  }

  lemma MergedAscends(s: Step)
    requires Merged(TablesOf(s.Cands()), s.drop, s.items, KEY_MAX + 1)
    ensures Ascending(s.items)
  {
  }

  lemma OldApart(files: seq<File>, last: nat, tot: nat, h: Hash, f: File, g: File)
    requires Levelled(files, last, tot, h) && f in files && g in files && f != g && f.level == g.level > 0
    requires f.table.Ok(h) && g.table.Ok(h)
    ensures Apart(f.table, g.table)
  {
  }

  /** No candidate is newer than a file left at its level or above. */
  lemma LeftIsNewer(files: seq<File>, last: nat, tot: nat, h: Hash, s: Step, f: File, c: File)
    requires Levelled(files, last, tot, h) && Chosen(files, h, s)
    requires f in files && f !in s.Cands() && f.level <= s.level && c in s.Cands() && c in files
    ensures c.table.time <= f.table.time
  {
    CandsAre(files, h, s, last, tot);
  }

  lemma DeeperIsOlder(files: seq<File>, last: nat, tot: nat, h: Hash, f: File, g: File)
    requires Levelled(files, last, tot, h) && f in files && g in files && f.level < g.level
    ensures g.table.time <= f.table.time
  {
  }

  lemma LevelledIsOk(files: seq<File>, last: nat, tot: nat, h: Hash)
    requires Levelled(files, last, tot, h)
    ensures FilesOk(files, last, tot, h)
  {
  }

  lemma PairTimes(files: seq<File>, last: nat, tot: nat, h: Hash, s: Step, files': seq<File>, f: File, g: File)
    requires Levelled(files, last, tot, h) && Compacts(files, last, tot, h, s, files')
    requires f in files' && g in files' && f.level < g.level
    ensures g.table.time <= f.table.time
  {
    hide *;
    LevelledIsOk(files, last, tot, h);
    CompactsIs(files, last, tot, h, s, files');
    if f in s.News(last) {
      NewLevel(s, last, f);
      if g in s.News(last) {
        NewLevel(s, last, g);
      } else {
        var c := NewTime(files, last, tot, h, s, f);
        CandLevel(files, h, s, last, tot, c);
        DeeperIsOlder(files, last, tot, h, c, g);
      }
    } else if g in s.News(last) {
      NewLevel(s, last, g);
      var c := NewTime(files, last, tot, h, s, g);
      LeftIsNewer(files, last, tot, h, s, f, c);
    } else {
      DeeperIsOlder(files, last, tot, h, f, g);
    }
  }

  lemma NewLevel(s: Step, last: nat, n: File)
    requires n in s.News(last)
    ensures n.level == s.level + 1
  {
  }

  lemma CandLevel(files: seq<File>, h: Hash, s: Step, last: nat, tot: nat, c: File)
    requires Chosen(files, h, s) && FilesOk(files, last, tot, h) && c in s.Cands()
    ensures c.level == s.level || c.level == s.level + 1
  {
    CandsAre(files, h, s, last, tot);
  }

  lemma KeepsTimes(files: seq<File>, last: nat, tot: nat, h: Hash, s: Step, files': seq<File>)
    requires Levelled(files, last, tot, h) && Compacts(files, last, tot, h, s, files')
    ensures NewerAbove(files') && FlushTimesDiffer(files')
  {
    assert FlushTimesDiffer(files) && forall n | n in s.News(last) :: n.level > 0;
    assert FlushTimesDiffer(files');
    hide Levelled, Compacts;
    forall f, g | f in files' && g in files' && f.level < g.level ensures g.table.time <= f.table.time {
      PairTimes(files, last, tot, h, s, files', f, g);
    }
  }

  lemma KeepsOk(files: seq<File>, last: nat, tot: nat, h: Hash, s: Step, files': seq<File>)
    requires Levelled(files, last, tot, h) && Compacts(files, last, tot, h, s, files')
    ensures FilesOk(files', last + |s.tables|, if tot < s.level + 1 then s.level + 1 else tot, h)
  {
    hide Formed, Merged, Table.Ok, Chosen, Compacts, Levelled;
    CompactsIs(files, last, tot, h, s, files');
    LevelledIsOk(files, last, tot, h);
    forall f | f in s.News(last) ensures f.table.Ok(h) && f.table.time <= last {
      var c := NewTime(files, last, tot, h, s, f);
    }
  }

  /** A compaction keeps everything the levels keep. */
  lemma CompactionKeepsLevels(files: seq<File>, last: nat, tot: nat, h: Hash, s: Step, files': seq<File>)
    requires Levelled(files, last, tot, h) && Compacts(files, last, tot, h, s, files')
    ensures Levelled(files', last + |s.tables|, if tot < s.level + 1 then s.level + 1 else tot, h)
  {
    KeepsRanges(files, last, tot, h, s, files');
    KeepsTimes(files, last, tot, h, s, files');
    KeepsOk(files, last, tot, h, s, files');
  }

  // ---------- Which table a lookup stops at ----------

  /** The version is at least as new as every other holder of the key. */
  lemma VersionIsNewest(files: seq<File>, last: nat, tot: nat, h: Hash, k: nat, v: nat, j: nat)
    requires Levelled(files, last, tot, h) && v < |files| && j < |files| && j != v
    requires IsVersion(files, k, files[v]) && Holds(files[j], k)
    ensures files[j].table.time <= files[v].table.time
  {
    var a, b := if j < v then j else v, if j < v then v else j;
    assert files[a].name != files[b].name;
    assert files[j] in files && files[j] != files[v];
  }

  /**
    getOffsetFromSSTable keeps the first of the newest tables that hold the key.  That is the
    version that counts exactly when no deeper table with the same time stands before it in the list.
   */
  lemma LookupIsVersionIff(files: seq<File>, last: nat, tot: nat, h: Hash, k: nat, v: nat)
    requires Levelled(files, last, tot, h) && v < |files| && IsVersion(files, k, files[v])
    ensures Winner(TablesOf(files), k, |files|) == v <==>
            forall j | 0 <= j < v && Holds(files[j], k) :: files[j].table.time != files[v].table.time
  {
    var ts := TablesOf(files);
    var w := Winner(ts, k, |files|);
    WinnerIsNewest(ts, k, |files|);
    assert ts[v] == files[v].table;
    hide Levelled, IsVersion;
    if w != v {
      VersionIsNewest(files, last, tot, h, k, v, w);
    } else {
      forall j | 0 <= j < v && Holds(files[j], k) ensures files[j].table.time != files[v].table.time {
        assert ts[j] == files[j].table;
      }
    }
  }

  /** In particular the lookup is exact for keys whose tables all have different times. */
  lemma LookupWithDifferentTimes(files: seq<File>, last: nat, tot: nat, h: Hash, k: nat)
    requires Levelled(files, last, tot, h)
    requires forall i, j | 0 <= i < j < |files| && Holds(files[i], k) && Holds(files[j], k) ::
               files[i].table.time != files[j].table.time
    ensures var won := Won(TablesOf(files), k);
      match Version(files, k)
      case None => won.None?
      case Some(f) => won == Some(Item(Lookup(f.table.entries, k).value, f.table.time))
  {
    VersionIsUnique(files, last, tot, h, k);
    var ts := TablesOf(files);
    match Version(files, k) {
      case Some(f) =>
        var v :| 0 <= v < |files| && files[v] == f;
        LookupIsVersionIff(files, last, tot, h, k, v);
      case None =>
        forall i | 0 <= i < |ts| ensures Lookup(ts[i].entries, k).None? {
          assert files[i] in files && !Holds(files[i], k);
        }
        NoWinner(ts, k, |ts|);
    }
  }
}

/**
  The level bookkeeping of kvstore.cc as it runs: flushing, choosing candidates, compacting and
  checking the levels, over the list sstFiles and the counters levelCnt, SScnt and totLevel.
 */
module LsmStore {
  import opened LsmTable
  import opened Options
  import opened LsmMerge
  import opened LsmLevels
  import opened LsmRuns
  import opened Powers

  /** The files of one level, in list order. */
  function OfLevel(files: seq<File>, level: nat): (r: seq<File>)
    ensures forall f :: f in r <==> f in files && f.level == level
    ensures |r| == CountLevel(files, level)
  {
    if |files| == 0 then []
    else
      assert files == [files[0]] + files[1..];
      (if files[0].level == level then [files[0]] else []) + OfLevel(files[1..], level)
  }

  function Cnt(levelCnt: map<nat, nat>, level: nat): nat {
    if level in levelCnt then levelCnt[level] else 0
  }

  function Without(files: seq<File>, i: nat): (r: seq<File>)
    requires i < |files|
    ensures |r| == |files| - 1
  {
    files[..i] + files[i + 1..]
  }

  lemma WithoutNames(files: seq<File>, i: nat)
    requires i < |files| && NamesDiffer(files)
    ensures NamesDiffer(Without(files, i))
  {
    var r := Without(files, i);
    forall j, k | 0 <= j < k < |r| ensures r[j].name != r[k].name {
      assert r[j] == files[if j < i then j else j + 1] && r[k] == files[if k < i then k else k + 1];
    }
  }

  lemma WithoutMembers(files: seq<File>, i: nat, f: File)
    requires i < |files| && NamesDiffer(files)
    ensures f in Without(files, i) <==> f in files && f != files[i]
  {
    var r := Without(files, i);
    if f in files && f != files[i] {
      var j :| 0 <= j < |files| && files[j] == f;
      assert r[if j < i then j else j - 1] == f;
    }
    if f in r {
      var j :| 0 <= j < |r| && r[j] == f;
      assert f == files[if j < i then j else j + 1];
    }
  }

  lemma WithoutCount(files: seq<File>, i: nat, l: nat)
    requires i < |files|
    ensures CountLevel(Without(files, i), l) == CountLevel(files, l) - if files[i].level == l then 1 else 0
  {
    var back := [files[i]] + files[i + 1..];
    assert back[1..] == files[i + 1..];
    assert CountLevel(back, l) == CountLevel(files[i + 1..], l) + if files[i].level == l then 1 else 0;
    hide CountLevel;
    assert files == files[..i] + back;
    CountAppend(files[..i], back, l);
    CountAppend(files[..i], files[i + 1..], l);
  }

  // ---------- Choosing the oldest tables of a level ----------

  ghost predicate Nonempty(files: seq<File>) {
    forall f | f in files :: |f.table.entries| > 0
  }

  /** One pass of the replacement loop: the last of the candidates and f is left over. */
  method Replace(cands: seq<File>, f: File) returns (cands': seq<File>, now: File)
    requires Nonempty(cands) && |f.table.entries| > 0
    ensures |cands'| == |cands|
    ensures multiset(cands') + multiset{now} == multiset(cands) + multiset{f}
    ensures Nonempty(cands') && |now.table.entries| > 0 && forall c | c in cands' :: Older(c, now)
  {
    cands', now := cands, f;
    for i := 0 to |cands|
      invariant |cands'| == |cands| && Nonempty(cands') && |now.table.entries| > 0
      invariant multiset(cands') + multiset{now} == multiset(cands) + multiset{f}
      invariant forall j | 0 <= j < i :: |cands'[j].table.entries| > 0 && Older(cands'[j], now)
    {
      assert cands'[i] in cands';
      if cands'[i].table.time > now.table.time ||
         (cands'[i].table.time == now.table.time && cands'[i].table.MinKey() > now.table.MinKey()) {
        ghost var was := cands';
        var tmp := cands'[i];
        cands' := cands'[i := now];
        assert forall c | c in cands' :: c == now || c in was;
        now := tmp;
      }
    }
  }

  /** The candidates chosen among the files seen so far. */
  ghost predicate OldestSeen(seen: seq<File>, cands: seq<File>, numL: nat) {
    && |cands| == (if |seen| < numL then |seen| else numL)
    && multiset(cands) <= multiset(seen) && (|seen| <= numL ==> cands == seen)
    && forall f, c | f in seen && f !in cands && c in cands && |f.table.entries| > 0 && |c.table.entries| > 0 :: Older(c, f)
  }

  lemma ReplaceKeepsOldest(seen: seq<File>, cands: seq<File>, numL: nat, f: File, cands': seq<File>, now: File)
    requires OldestSeen(seen, cands, numL) && |seen| >= numL && |cands'| == |cands|
    requires multiset(cands') + multiset{now} == multiset(cands) + multiset{f}
    requires Nonempty(cands') && |now.table.entries| > 0 && forall c | c in cands' :: Older(c, now)
    ensures OldestSeen(seen + [f], cands', numL)
  {
    Members(cands, f, cands', now);
    forall g, c | g in seen + [f] && g !in cands' && c in cands' && |g.table.entries| > 0 && |c.table.entries| > 0
      ensures Older(c, g)
    {
      if g != now {
        assert g in seen && g !in cands;
        if c !in cands { assert c == f && now in cands; }
      }
    }
    SubsetAfter(multiset(seen), multiset(cands), f, multiset(cands'), now);
    assert multiset(seen + [f]) == multiset(seen) + multiset{f};
  }

  lemma Members(cands: seq<File>, f: File, cands': seq<File>, now: File)
    requires multiset(cands') + multiset{now} == multiset(cands) + multiset{f}
    ensures forall x :: x in cands' || x == now <==> x in cands || x == f
    ensures now == f ==> forall x :: x in cands' <==> x in cands
  {
    if now == f {
      assert multiset(cands') == multiset(cands') + multiset{now} - multiset{f};
      assert multiset(cands) == multiset(cands) + multiset{f} - multiset{f};
      forall x ensures x in cands' <==> x in cands { assert x in multiset(cands') <==> x in multiset(cands); }
    }
    forall x ensures x in cands' || x == now <==> x in cands || x == f {
      assert x in multiset(cands') + multiset{now} <==> x in multiset(cands) + multiset{f};
    }
  }

  lemma SubsetAfter(seen: multiset<File>, cands: multiset<File>, f: File, cands': multiset<File>, now: File)
    requires cands <= seen && cands' + multiset{now} == cands + multiset{f}
    ensures cands' <= seen + multiset{f}
  {
    assert cands' <= cands + multiset{f};
  }

  /** The numL oldest files of the level. */
  method ChooseOldest(files: seq<File>, level: nat, numL: nat) returns (cands: seq<File>)
    requires Nonempty(files) && 0 < numL <= CountLevel(files, level)
    ensures OldestSeen(OfLevel(files, level), cands, numL)
  {
    hide OldestSeen, OfLevel, CountLevel;
    cands := [];
    assert OfLevel(files[..0], level) == [] by { NoFiles(level); assert files[..0] == []; }
    EmptyOldest(numL);
    for k := 0 to |files|
      invariant OldestSeen(OfLevel(files[..k], level), cands, numL)
    {
      var f := files[k];
      assert f in files;
      OfLevelSnoc(files, k, level);
      ghost var seen := OfLevel(files[..k], level);
      SeenFacts(files, seen, cands, numL);
      assert seen + [] == seen;
      if f.level == level {
        if |cands| < numL {
          AddOldest(seen, cands, numL, f);
          cands := cands + [f];
        } else {
          var cands', now := Replace(cands, f);
          ReplaceKeepsOldest(seen, cands, numL, f, cands', now);
          cands := cands';
        }
      }
    }
    assert files[..|files|] == files;
  }

  lemma NoFiles(level: nat)
    ensures OfLevel([], level) == []
  {
  }

  lemma EmptyOldest(numL: nat)
    ensures OldestSeen([], [], numL)
  {
  }

  lemma SeenFacts(files: seq<File>, seen: seq<File>, cands: seq<File>, numL: nat)
    requires OldestSeen(seen, cands, numL) && Nonempty(files) && forall f | f in seen :: f in files
    ensures Nonempty(cands) && (|cands| < numL <==> |seen| < numL)
  {
    forall c | c in cands ensures c in seen { assert c in multiset(cands); }
  }

  lemma AddOldest(seen: seq<File>, cands: seq<File>, numL: nat, f: File)
    requires OldestSeen(seen, cands, numL) && |seen| < numL
    ensures OldestSeen(seen + [f], cands + [f], numL)
  {
  }

  lemma OfLevelSnoc(files: seq<File>, k: nat, level: nat)
    requires k < |files|
    ensures OfLevel(files[..k + 1], level) == OfLevel(files[..k], level) + if files[k].level == level then [files[k]] else []
  {
    assert files[..k + 1] == files[..k] + [files[k]];
    OfLevelAppend(files[..k], [files[k]], level);
    assert [files[k]][1..] == [];
  }

  lemma {:induction false} OfLevelAppend(a: seq<File>, b: seq<File>, level: nat)
    ensures OfLevel(a + b, level) == OfLevel(a, level) + OfLevel(b, level)
  {
    if |a| == 0 {
      assert a + b == b;
    } else {
      assert (a + b)[1..] == a[1..] + b;
      OfLevelAppend(a[1..], b, level);
    }
  }

  /** keyMin and keyMax over the chosen files. */
  method Scale(low: seq<File>) returns (keyMin: nat, keyMax: nat)
    requires Nonempty(low) && |low| > 0 && forall c | c in low && |c.table.entries| > 0 :: c.table.MinKey() <= KEY_MAX
    ensures Spans(low, keyMin, keyMax)
  {
    keyMin, keyMax := KEY_MAX, 0;
    for i := 0 to |low|
      invariant forall j | 0 <= j < i :: |low[j].table.entries| > 0 && keyMin <= low[j].table.MinKey() && low[j].table.MaxKey() <= keyMax
      invariant if i == 0 then keyMin == KEY_MAX && keyMax == 0 else
        && (exists j :: 0 <= j < i && |low[j].table.entries| > 0 && low[j].table.MinKey() == keyMin)
        && (exists j :: 0 <= j < i && |low[j].table.entries| > 0 && low[j].table.MaxKey() == keyMax)
    {
      assert low[i] in low;
      var t := low[i].table;
      keyMin := if t.MinKey() < keyMin then t.MinKey() else keyMin;
      keyMax := if t.MaxKey() > keyMax then t.MaxKey() else keyMax;
    }
  }

  /** The files of the next level that meet the range. */
  method NextLevel(files: seq<File>, level: nat, keyMin: nat, keyMax: nat) returns (high: seq<File>)
    requires Nonempty(files)
    ensures multiset(high) <= multiset(files)
    ensures forall f | f in high :: f in files && |f.table.entries| > 0
    ensures forall f | f in files && |f.table.entries| > 0 ::
              f in high <==> f.level == level + 1 && Touches(f.table, keyMin, keyMax)
  {
    high := [];
    for i := 0 to |files|
      invariant multiset(high) <= multiset(files[..i])
      invariant forall f | f in high :: f in files && |f.table.entries| > 0 && f.level == level + 1 && Touches(f.table, keyMin, keyMax)
      invariant forall j | 0 <= j < i && |files[j].table.entries| > 0 ::
                  files[j].level == level + 1 && Touches(files[j].table, keyMin, keyMax) ==> files[j] in high
    {
      var f := files[i];
      assert f in files;
      assert files[..i + 1] == files[..i] + [f];
      if f.level == level + 1 && !(f.table.MaxKey() < keyMin || f.table.MinKey() > keyMax) {
        high := high + [f];
      }
    }
    assert files[..|files|] == files;
  }

  // ---------- The store ----------

  ghost predicate Counted(files: seq<File>, levelCnt: map<nat, nat>) {
    forall l: nat :: Cnt(levelCnt, l) == CountLevel(files, l)
  }

  ghost predicate Small(files: seq<File>) {
    forall f | f in files :: |f.table.entries| <= MAX_NUM
  }

  lemma FilesNonempty(files: seq<File>, last: nat, tot: nat, h: Hash)
    requires Levelled(files, last, tot, h)
    ensures Nonempty(files) && NamesDiffer(files)
  {
  }

  lemma PartNames(files: seq<File>, part: seq<File>)
    requires NamesDiffer(files) && multiset(part) <= multiset(files)
    ensures NamesDiffer(part) && forall f | f in part :: f in files
  {
    forall f | f in part ensures f in files { assert f in multiset(part) && f in multiset(files); }
    forall j, k | 0 <= j < k < |part| ensures part[j].name != part[k].name {
      assert part[j] in part && part[k] in part;
      if part[j].name == part[k].name {
        var a :| 0 <= a < |files| && files[a] == part[j];
        var b :| 0 <= b < |files| && files[b] == part[k];
        assert a == b;
        Twice(part, j, k);
        Once(files, a);
      }
    }
  }

  lemma Twice(s: seq<File>, j: nat, k: nat)
    requires j < k < |s| && s[j] == s[k]
    ensures multiset(s)[s[j]] >= 2
  {
    assert s == s[..k] + s[k..];
    assert s[j] in s[..k] && s[k] in s[k..];
    assert multiset(s) == multiset(s[..k]) + multiset(s[k..]);
  }

  lemma Once(s: seq<File>, a: nat)
    requires NamesDiffer(s) && a < |s|
    ensures multiset(s)[s[a]] == 1
  {
    assert s == s[..a] + ([s[a]] + s[a + 1..]);
    assert s[a] !in s[..a] && s[a] !in s[a + 1..];
  }

  lemma BothNames(files: seq<File>, low: seq<File>, high: seq<File>, level: nat)
    requires NamesDiffer(files) && NamesDiffer(low) && NamesDiffer(high)
    requires forall f | f in low :: f in files && f.level == level
    requires forall f | f in high :: f in files && f.level == level + 1
    ensures NamesDiffer(low + high)
  {
    forall j, k | 0 <= j < |low| && 0 <= k < |high| ensures low[j].name != high[k].name {
      assert low[j] in low && high[k] in high;
      var a :| 0 <= a < |files| && files[a] == low[j];
      var b :| 0 <= b < |files| && files[b] == high[k];
      if a < b { assert files[a].name != files[b].name; } else { assert files[b].name != files[a].name; }
    }
  }

  lemma {:induction false} OfLevelPart(files: seq<File>, level: nat)
    ensures multiset(OfLevel(files, level)) <= multiset(files)
  {
    if |files| > 0 {
      OfLevelPart(files[1..], level);
      assert files == [files[0]] + files[1..];
    }
  }

  /** Header range, then filter, then binary search. */
  method Probe(t: Table, key: nat, h: Hash) returns (offset: Option<nat>)
    requires t.Ok(h)
    ensures offset == match Lookup(t.entries, key) case None => None case Some(e) => Some(e.offset)
  {
    HasIsLookup(t.entries, key);
    if Has(t.entries, key) { NoStoredKeyIsSkipped(t, h, key); }
    hide Lookup, Sorted, Has, Passes;
    offset := None;
    if t.MinKey() <= key <= t.MaxKey() {
      if Passes(t.filter, h, key) {
        offset := GetOffset(t.entries, key);
      }
    }
  }

  class KVStore {
    const h: Hash
    var sstFiles: seq<File>
    var levelCnt: map<nat, nat>
    var SScnt: nat
    var totLevel: nat

    ghost predicate Valid()
      reads this
    {
      Levelled(sstFiles, SScnt, totLevel, h) && Counted(sstFiles, levelCnt) && Small(sstFiles)
    }

    ghost function State(): Db
      reads this
    {
      Db(sstFiles, SScnt, totLevel)
    }

    constructor (h: Hash)
      ensures Valid() && State() == EMPTY && this.h == h
    {
      this.h := h;
      sstFiles, levelCnt, SScnt, totLevel := [], map[], 0, 0;
    }

    /** The loop of getOffsetFromSSTable: range test, filter, binary search, newest time so far. */
    method GetOffsetFromSSTable(key: nat) returns (offset: Option<nat>)
      requires Valid()
      ensures offset == match Won(TablesOf(sstFiles), key) case None => None case Some(item) => Some(item.entry.offset)
    {
      hide Levelled, Counted, Small, Table.Ok, Lookup, Sorted, Passes;
      var timeNew := 0;
      offset := None;
      ghost var ts := TablesOf(sstFiles);
      for i := 0 to |sstFiles|
        invariant var w := Winner(ts, key, i);
          if w < 0 then offset == None && timeNew == 0
          else offset == Some(Lookup(ts[w].entries, key).value.offset) && timeNew == ts[w].time
      {
        var t := sstFiles[i].table;
        TableIsOk(i);
        assert ts[i] == t;
        if t.time > timeNew {
          var offTmp := Probe(t, key, h);
          if offTmp != None {
            offset := offTmp;
            timeNew := t.time;
          }
        }
      }
    }

    lemma TableIsOk(i: nat)
      requires Valid() && i < |sstFiles|
      ensures sstFiles[i].table.Ok(h) && sstFiles[i].table.time > 0
    {
      assert sstFiles[i] in sstFiles;
    }

    /** Write the memtable's entries as a new table of level 0. */
    method SSTableGenerator(list: seq<Entry>)
      requires Valid() && Sorted(list) && |list| <= MAX_NUM && (|list| > 0 ==> list[|list| - 1].key <= KEY_MAX)
      modifies this
      ensures Valid() && totLevel == old(totLevel)
      ensures if |list| == 0 then State() == old(State()) else IsMemtable(list) && State() == Flushed(old(State()), list, h)
      ensures StoredEntries(sstFiles) <= old(StoredEntries(sstFiles)) + (set e | e in list)
      ensures forall k: nat :: Shown(sstFiles, k) == match Lookup(list, k)
                case None => old(Shown(sstFiles, k))
                case Some(e) => if e.len > 0 then Some(e) else None
    {
      hide Levelled, Counted, Small, Lookup, Sorted, Shown, Table.Ok, StoredEntries;
      NothingListed();
      if |list| == 0 {
        return;
      }
      SScnt := SScnt + 1;
      var t := FormTable(list, SScnt, h);
      FlushKeepsLevels(sstFiles, SScnt - 1, totLevel, h, t);
      forall k: nat { FlushShows(sstFiles, SScnt - 1, totLevel, h, t, k); }
      OneMoreFile(sstFiles, File(0, SScnt, t));
      PushOne(File(0, SScnt, t));
    }

    /** sstFiles.push_back and the counter that goes with it. */
    method PushOne(f: File)
      requires Counted(sstFiles, levelCnt)
      modifies this`sstFiles, this`levelCnt
      ensures sstFiles == old(sstFiles) + [f] && Counted(sstFiles, levelCnt)
    {
      forall l: nat ensures CountLevel(sstFiles + [f], l) == CountLevel(sstFiles, l) + if f.level == l then 1 else 0 {
        CountAppend(sstFiles, [f], l);
        assert [f][1..] == [];
      }
      hide CountLevel;
      sstFiles := sstFiles + [f];
      levelCnt := levelCnt[f.level := Cnt(levelCnt, f.level) + 1];
    }

    /** The files to merge: the chosen ones of the level, and those of the next level that they meet. */
    method GetCandidates(level: nat) returns (low: seq<File>, high: seq<File>, ghost keyMin: nat, ghost keyMax: nat)
      requires Valid() && Cnt(levelCnt, level) > 2 * Pow2(level)
      ensures Picks(sstFiles, level, low) && Spans(low, keyMin, keyMax)
      ensures Touched(sstFiles, h, level, low, high, keyMin, keyMax) && NamesDiffer(low + high)
      ensures |low| == if level == 0 then CountLevel(sstFiles, 0) else CountLevel(sstFiles, level) - 2 * Pow2(level)
      ensures forall f | f in low :: f in sstFiles && f.level == level
      ensures forall f | f in high :: f in sstFiles && f.level == level + 1
    {
      hide Levelled, Counted, Small, Pow2, Picks, Spans, Touched, OldestSeen, NamesDiffer, CountLevel, Touches;
      low := ChooseLow(level);
      KeysFit(sstFiles, SScnt, totLevel, h, low);
      var kMin, kMax := Scale(low);
      high := NextLevel(sstFiles, level, kMin, kMax);
      FilesNonempty(sstFiles, SScnt, totLevel, h);
      PartNames(sstFiles, high);
      keyMin, keyMax := kMin, kMax;
      OkAreNonempty(sstFiles, SScnt, totLevel, h);
      SpansBounds(low, kMin, kMax);
      TouchedIs(level, low, high, kMin, kMax);
      BothNames(sstFiles, low, high, level);
    }

    /** The files of the level that are merged down: all of level 0, the oldest ones of a deeper level. */
    method ChooseLow(level: nat) returns (low: seq<File>)
      requires Valid() && Cnt(levelCnt, level) > 2 * Pow2(level)
      ensures Picks(sstFiles, level, low) && NamesDiffer(low) && Nonempty(low) && Nonempty(sstFiles) && |low| > 0
      ensures |low| == if level == 0 then CountLevel(sstFiles, 0) else CountLevel(sstFiles, level) - 2 * Pow2(level)
      ensures forall f | f in low :: f in sstFiles && f.level == level
    {
      hide Levelled, Small, Pow2, Picks, NamesDiffer, CountLevel, OfLevel;
      FilesNonempty(sstFiles, SScnt, totLevel, h);
      OfLevelPart(sstFiles, level);
      if level == 0 {
        low := OfLevel(sstFiles, 0);
        PartNames(sstFiles, low);
        AllAreLow(sstFiles, low);
      } else {
        low := ChooseOldest(sstFiles, level, Cnt(levelCnt, level) - 2 * Pow2(level));
        SubsetTrans(multiset(low), multiset(OfLevel(sstFiles, level)), multiset(sstFiles));
        PartNames(sstFiles, low);
        OldestAreLow(sstFiles, level, low);
      }
      PickedAre(sstFiles, level, low);
    }

    lemma TouchedIs(level: nat, low: seq<File>, high: seq<File>, keyMin: nat, keyMax: nat)
      requires forall f | f in sstFiles :: f.table.Ok(h) && |f.table.entries| > 0
      requires forall c | c in low :: c in sstFiles
      requires forall c | c in low && |c.table.entries| > 0 :: keyMin <= c.table.MinKey() && c.table.MaxKey() <= keyMax
      requires forall f | f in high :: f in sstFiles && |f.table.entries| > 0
      requires forall f | f in sstFiles && |f.table.entries| > 0 ::
                 f in high <==> f.level == level + 1 && Touches(f.table, keyMin, keyMax)
      ensures Touched(sstFiles, h, level, low, high, keyMin, keyMax)
      ensures forall f | f in high :: f.level == level + 1
    {
      hide Table.Ok, Touches;
    }

    /** Every written table becomes a file of the next level under the next number. */
    method PushAll(tables: seq<Table>, level: nat, ghost s: Step)
      requires Counted(sstFiles, levelCnt) && s.level == level && s.tables == tables
      modifies this`sstFiles, this`levelCnt, this`SScnt
      ensures sstFiles == old(sstFiles) + s.News(old(SScnt)) && SScnt == old(SScnt) + |tables|
      ensures Counted(sstFiles, levelCnt)
    {
      hide Counted;
      ghost var news := s.News(SScnt);
      assert news[..0] == [];
      for i := 0 to |tables|
        invariant SScnt == old(SScnt) + i && sstFiles == old(sstFiles) + news[..i] && Counted(sstFiles, levelCnt)
      {
        SScnt := SScnt + 1;
        assert news[i] == File(level + 1, SScnt, tables[i]);
        assert news[..i + 1] == news[..i] + [news[i]];
        PushOne(File(level + 1, SScnt, tables[i]));
      }
      assert news[..|tables|] == news;
    }

    /** Take one file out of the list and out of its level's counter. */
    method EraseOne(f: File)
      requires Counted(sstFiles, levelCnt) && NamesDiffer(sstFiles) && f in sstFiles
      modifies this`sstFiles, this`levelCnt
      ensures Counted(sstFiles, levelCnt) && NamesDiffer(sstFiles) && |sstFiles| == old(|sstFiles|) - 1
      ensures sstFiles == Remaining(old(sstFiles), [f])
      ensures forall g :: g in sstFiles <==> g in old(sstFiles) && g != f
      ensures forall l: nat :: CountLevel(sstFiles, l) == old(CountLevel(sstFiles, l)) - if f.level == l then 1 else 0
    {
      hide CountLevel, Without;
      var i := 0;
      while sstFiles[i].name != f.name
        invariant i < |sstFiles| && forall j | 0 <= j < i :: sstFiles[j] != f
        decreases |sstFiles| - i
      {
        i := i + 1;
      }
      SameName(sstFiles, i, f);
      RemainingOne(sstFiles, i);
      WithoutNames(sstFiles, i);
      forall g { WithoutMembers(sstFiles, i, g); }
      forall l: nat { WithoutCount(sstFiles, i, l); }
      hide NamesDiffer;
      levelCnt := levelCnt[f.level := Cnt(levelCnt, f.level) - 1];
      sstFiles := Without(sstFiles, i);
    }

    /** Erase all merged files. */
    method EraseAll(cands: seq<File>)
      requires Counted(sstFiles, levelCnt) && NamesDiffer(sstFiles) && NamesDiffer(cands)
      requires forall c | c in cands :: c in sstFiles
      modifies this`sstFiles, this`levelCnt
      ensures Counted(sstFiles, levelCnt) && NamesDiffer(sstFiles) && |sstFiles| == old(|sstFiles|) - |cands|
      ensures sstFiles == Remaining(old(sstFiles), cands)
      ensures forall g :: g in sstFiles <==> g in old(sstFiles) && g !in cands
      ensures forall l: nat :: CountLevel(sstFiles, l) == old(CountLevel(sstFiles, l)) - CountLevel(cands, l)
    {
      hide Counted, CountLevel, NamesDiffer, Remaining;
      NothingErased(sstFiles, cands);
      for i := 0 to |cands|
        invariant Counted(sstFiles, levelCnt) && NamesDiffer(sstFiles) && |sstFiles| == old(|sstFiles|) - i
        invariant sstFiles == Remaining(old(sstFiles), cands[..i])
        invariant forall l: nat :: CountLevel(sstFiles, l) == old(CountLevel(sstFiles, l)) - CountLevel(cands[..i], l)
      {
        NotBefore(cands, i);
        forall l: nat { CountPrefix(cands, i, l); }
        assert cands[..i + 1] == cands[..i] + [cands[i]];
        RemainingMore(old(sstFiles), cands[..i], [cands[i]]);
        EraseOne(cands[i]);
      }
      assert cands[..|cands|] == cands;
    }

    /** Merge the candidates of a level into the next one. */
    method Compaction(level: nat)
      requires Valid() && Cnt(levelCnt, level) > 2 * Pow2(level)
      modifies this
      ensures Valid() && totLevel == if old(totLevel) < level + 1 then level + 1 else old(totLevel)
      ensures exists s: Step :: s.level == level && Compacted(old(State()), s, h, State())
      ensures forall k: nat | k <= KEY_MAX :: Shown(sstFiles, k) == old(Shown(sstFiles, k))
      ensures StoredEntries(sstFiles) <= old(StoredEntries(sstFiles))
      ensures CountLevel(sstFiles, level) <= 2 * Pow2(level) && |sstFiles| <= old(|sstFiles|)
      ensures forall l: nat | l != level && l != level + 1 :: CountLevel(sstFiles, l) == old(CountLevel(sstFiles, l))
    {
      hide Levelled, Counted, Small, Compacts, Compacted, Picks, Spans, Touched, Merged, Formed, NamesDiffer, AllOk, Shown;
      hide Pow2, Cnt, StoredEntries, CountLevel, Remaining, Overfull;
      ghost var d := State();
      ghost var files, last, tot := sstFiles, SScnt, totLevel;
      CntIs(level);
      TooFull(files, level);
      var low, high, keyMin, keyMax := GetCandidates(level);
      var cands := low + high;
      if level + 1 > totLevel {
        totLevel := level + 1;
      }
      CandidatesOk(files, last, tot, h, cands);
      var tables, items := Merge(TablesOf(cands), level + 1 == totLevel, h);
      ghost var s := Step(level, low, high, keyMin, keyMax, level + 1 == totLevel, items, tables);
      NewsNames(files, last, tot, h, s);
      PushAll(tables, level, s);
      EraseAll(cands);
      IsCompacted(d, s, h, State());
      CompactedIs(d, s, h, State());
      CompactionKeepsLevels(files, last, tot, h, s, sstFiles);
      CompactionKeepsEntries(files, last, tot, h, s, sstFiles);
      SizesAfter(files, last, s, sstFiles);
      forall k: nat | k <= KEY_MAX ensures Shown(sstFiles, k) == Shown(files, k) {
        CompactionShows(files, last, tot, h, s, sstFiles, SScnt, totLevel, k);
      }
      CountsAfter(files, last, s, sstFiles);
    }

    /** checkLevel: compact every level that is too full, from the top down. */
    method CheckLevel()
      requires Valid()
      modifies this
      ensures Valid()
      ensures StoredEntries(sstFiles) <= old(StoredEntries(sstFiles))
      ensures forall l: nat :: CountLevel(sstFiles, l) <= 2 * Pow2(l)
      ensures forall k: nat | k <= KEY_MAX :: Shown(sstFiles, k) == old(Shown(sstFiles, k))
      ensures old(Reachable(State(), h)) ==> Reachable(State(), h)
    {
      ghost var most, tot := |sstFiles|, totLevel;
      hide Valid, Shown, CountLevel, Pow2, Cnt, StoredEntries, Reachable, Compacted;
      var i := 0;
      while i <= totLevel + 1
        invariant Valid() && i <= totLevel + 2 && |sstFiles| <= most && totLevel <= tot + most
        invariant StoredEntries(sstFiles) <= old(StoredEntries(sstFiles))
        invariant old(Reachable(State(), h)) ==> Reachable(State(), h)
        invariant forall l: nat | l < i :: CountLevel(sstFiles, l) <= 2 * Pow2(l)
        invariant forall k: nat | k <= KEY_MAX :: Shown(sstFiles, k) == old(Shown(sstFiles, k))
        decreases tot + most + 2 - i
      {
        CntIs(i);
        if Cnt(levelCnt, i) > 2 * Pow2(i) {
          PowAbove(i);
          ghost var d := State();
          Compaction(i);
          ghost var s: Step :| s.level == i && Compacted(d, s, h, State());
          if Reachable(d, h) { StepIsReachable(d, s, h, State()); }
        }
        i := i + 1;
      }
      forall l: nat | l >= i ensures CountLevel(sstFiles, l) == 0 { NothingDeeper(l); }
    }

    lemma NothingDeeper(l: nat)
      requires Valid() && l > totLevel
      ensures CountLevel(sstFiles, l) == 0
    {
      CountNone(sstFiles, l);
    }

    /** save: flush the memtable's entries, then bring the levels back within their limits. */
    method Save(list: seq<Entry>)
      requires Valid() && Sorted(list) && |list| <= MAX_NUM && (|list| > 0 ==> list[|list| - 1].key <= KEY_MAX)
      modifies this
      ensures Valid()
      ensures StoredEntries(sstFiles) <= old(StoredEntries(sstFiles)) + (set e | e in list)
      ensures forall l: nat :: CountLevel(sstFiles, l) <= 2 * Pow2(l)
      ensures forall k: nat | k <= KEY_MAX :: Shown(sstFiles, k) == match Lookup(list, k)
                case None => old(Shown(sstFiles, k))
                case Some(e) => if e.len > 0 then Some(e) else None
      ensures old(InLimits(sstFiles) && Reachable(State(), h)) ==> InLimits(sstFiles) && Reachable(State(), h)
    {
      hide Valid, Shown, CountLevel, Pow2, Lookup, Sorted, StoredEntries, Reachable, Flushed, IsMemtable;
      ghost var d := State();
      SSTableGenerator(list);
      if |list| > 0 && InLimits(d.files) && Reachable(d, h) { FlushIsReachable(d, list, h); }
      CheckLevel();
    }

    lemma CntIs(level: nat)
      requires Valid()
      ensures Cnt(levelCnt, level) == CountLevel(sstFiles, level)
    {
    }
  }

  lemma NothingListed()
    ensures forall k: nat :: Lookup([], k) == None
  {
  }

  lemma OneMoreFile(files: seq<File>, n: File)
    requires Small(files) && |n.table.entries| <= MAX_NUM
    ensures Small(files + [n])
    ensures StoredEntries(files + [n]) <= StoredEntries(files) + set e | e in n.table.entries
  {
  }

  lemma {:induction false} PowAbove(i: nat)
    ensures 2 * Pow2(i) > i
  {
    if i > 0 { PowAbove(i - 1); }
  }

  lemma SameName(files: seq<File>, i: nat, f: File)
    requires NamesDiffer(files) && f in files && i < |files| && files[i].name == f.name
    ensures files[i] == f
  {
    var j :| 0 <= j < |files| && files[j] == f;
  }

  lemma NothingErased(files: seq<File>, cands: seq<File>)
    ensures Remaining(files, cands[..0]) == files && forall l: nat :: CountLevel(cands[..0], l) == 0
  {
    RemainingAll(files, cands[..0]);
  }

  lemma NotBefore(cands: seq<File>, i: nat)
    requires NamesDiffer(cands) && i < |cands|
    ensures cands[i] !in cands[..i] && cands[i] in cands
  {
  }

  lemma CountPrefix(cands: seq<File>, i: nat, l: nat)
    requires i < |cands|
    ensures CountLevel(cands[..i + 1], l) == CountLevel(cands[..i], l) + if cands[i].level == l then 1 else 0
  {
    assert cands[..i + 1] == cands[..i] + [cands[i]];
    CountAppend(cands[..i], [cands[i]], l);
    assert [cands[i]][1..] == [];
  }

  lemma SubsetTrans(a: multiset<File>, b: multiset<File>, c: multiset<File>)
    requires a <= b <= c
    ensures a <= c
  {
  }

  lemma OkAreNonempty(files: seq<File>, last: nat, tot: nat, h: Hash)
    requires Levelled(files, last, tot, h)
    ensures forall f | f in files :: f.table.Ok(h) && |f.table.entries| > 0
  {
  }

  lemma KeysFit(files: seq<File>, last: nat, tot: nat, h: Hash, low: seq<File>)
    requires Levelled(files, last, tot, h) && forall c | c in low :: c in files
    ensures forall c | c in low && |c.table.entries| > 0 :: c.table.MinKey() <= KEY_MAX
  {
    forall c | c in low && |c.table.entries| > 0 ensures c.table.MinKey() <= KEY_MAX { Bounds(c.table, h); }
  }

  lemma SpansBounds(low: seq<File>, keyMin: nat, keyMax: nat)
    requires Spans(low, keyMin, keyMax)
    ensures forall c | c in low && |c.table.entries| > 0 :: keyMin <= c.table.MinKey() && c.table.MaxKey() <= keyMax
  {
  }

  lemma AllAreLow(files: seq<File>, low: seq<File>)
    requires NamesDiffer(low) && low == OfLevel(files, 0)
    ensures Picks(files, 0, low)
  {
    hide NamesDiffer, Older, OfLevel, CountLevel;
  }

  lemma OldestAreLow(files: seq<File>, level: nat, low: seq<File>)
    requires NamesDiffer(low) && level > 0 && CountLevel(files, level) > 2 * Pow2(level)
    requires OldestSeen(OfLevel(files, level), low, CountLevel(files, level) - 2 * Pow2(level))
    ensures Picks(files, level, low)
  {
    hide CountLevel, NamesDiffer, Older, OfLevel, Pow2;
    forall c | c in low ensures c in OfLevel(files, level) { assert c in multiset(low); }
  }

  lemma PickedAre(files: seq<File>, level: nat, low: seq<File>)
    requires Picks(files, level, low)
    ensures forall f | f in low :: f in files && f.level == level
  {
  }

  lemma CandidatesOk(files: seq<File>, last: nat, tot: nat, h: Hash, cands: seq<File>)
    requires Levelled(files, last, tot, h) && Small(files) && forall c | c in cands :: c in files
    ensures AllOk(TablesOf(cands), h) && forall t | t in TablesOf(cands) :: |t.entries| <= MAX_NUM
  {
    forall i | 0 <= i < |cands| ensures cands[i].table.Ok(h) && |cands[i].table.entries| <= MAX_NUM {
      assert cands[i] in cands;
    }
  }

  lemma NewsNames(files: seq<File>, last: nat, tot: nat, h: Hash, s: Step)
    requires Levelled(files, last, tot, h) && forall c | c in s.Cands() :: c in files
    ensures NamesDiffer(files + s.News(last)) && forall c | c in s.Cands() :: c in files + s.News(last)
    ensures forall n | n in s.News(last) :: n !in s.Cands()
  {
    var all := files + s.News(last);
    forall j, k | 0 <= j < k < |all| ensures all[j].name != all[k].name {
      if j < |files| { assert files[j] in files; }
    }
  }

  /** A compaction of the shallowest overfull level goes on with the run. */
  lemma StepIsReachable(d: Db, s: Step, h: Hash, d': Db)
    requires Reachable(d, h) && Compacted(d, s, h, d') && forall l: nat | l < s.level :: CountLevel(d.files, l) <= 2 * Pow2(l)
    ensures Reachable(d', h)
  {
    hide Reachable, Compacted, CountLevel, Pow2;
    NextIsReachable(d, d', h);
  }

  lemma FlushIsReachable(d: Db, es: seq<Entry>, h: Hash)
    requires Reachable(d, h) && InLimits(d.files) && IsMemtable(es)
    ensures Reachable(Flushed(d, es, h), h)
  {
    hide Reachable, IsMemtable, InLimits, Flushed;
    NextIsReachable(d, Flushed(d, es, h), h);
  }

  lemma TooFull(files: seq<File>, level: nat)
    ensures Overfull(files, level) <==> CountLevel(files, level) > 2 * Pow2(level)
  {
  }

  lemma IsCompacted(d: Db, s: Step, h: Hash, d': Db)
    requires Overfull(d.files, s.level) && Picks(d.files, s.level, s.low) && Spans(s.low, s.keyMin, s.keyMax)
    requires Touched(d.files, h, s.level, s.low, s.high, s.keyMin, s.keyMax) && NamesDiffer(s.Cands())
    requires s.drop <==> s.level + 1 == if d.tot < s.level + 1 then s.level + 1 else d.tot
    requires Merged(TablesOf(s.Cands()), s.drop, s.items, KEY_MAX + 1) && Formed(s.tables, s.items, h)
    requires forall n | n in s.News(d.last) :: n !in s.Cands()
    requires d'.files == Remaining(d.files + s.News(d.last), s.Cands()) && d'.last == d.last + |s.tables|
    requires d'.tot == if d.tot < s.level + 1 then s.level + 1 else d.tot
    ensures Compacted(d, s, h, d')
  {
    hide Overfull, Picks, Spans, Touched, NamesDiffer, Merged, Formed, Remaining;
    RemainingAppend(d.files, s.News(d.last), s.Cands());
    RemainingAll(s.News(d.last), s.Cands());
  }

  lemma OthersDiffer(files: seq<File>, i: nat)
    requires NamesDiffer(files) && i < |files|
    ensures files[i] !in files[..i] && files[i] !in files[i + 1..]
  {
  }

  lemma RemainingOne(files: seq<File>, i: nat)
    requires NamesDiffer(files) && i < |files|
    ensures Without(files, i) == Remaining(files, [files[i]])
  {
    hide NamesDiffer, Remaining, Without;
    OthersDiffer(files, i);
    PiecesRemain(files[..i], files[i], files[i + 1..]);
    PiecesAre(files, i);
  }

  lemma PiecesAre(files: seq<File>, i: nat)
    requires i < |files|
    ensures files == files[..i] + ([files[i]] + files[i + 1..]) && Without(files, i) == files[..i] + files[i + 1..]
  {
  }

  lemma PiecesRemain(a: seq<File>, g: File, b: seq<File>)
    requires g !in a && g !in b
    ensures Remaining(a + ([g] + b), [g]) == a + b
  {
    hide *;
    RemainingAppend(a, [g] + b, [g]);
    RemainingAppend([g], b, [g]);
    RemainingAll(a, [g]);
    RemainingNone([g], [g]);
    RemainingAll(b, [g]);
    assert [] + b == b;
  }

  lemma SizesAfter(files: seq<File>, last: nat, s: Step, files': seq<File>)
    requires Small(files) && forall t | t in s.tables :: |t.entries| <= MAX_NUM
    requires forall g :: g in files' <==> g in files + s.News(last) && g !in s.Cands()
    ensures Small(files')
  {
    forall f | f in files' ensures |f.table.entries| <= MAX_NUM {
      if f !in files {
        var i :| 0 <= i < |s.tables| && s.News(last)[i] == f;
        assert s.tables[i] in s.tables;
      }
    }
  }

  lemma CountsAfter(files: seq<File>, last: nat, s: Step, files': seq<File>)
    requires forall f | f in s.low :: f.level == s.level
    requires forall f | f in s.high :: f.level == s.level + 1
    requires forall l: nat :: CountLevel(files', l) == CountLevel(files + s.News(last), l) - CountLevel(s.Cands(), l)
    ensures CountLevel(files', s.level) == CountLevel(files, s.level) - |s.low|
    ensures forall l: nat | l != s.level && l != s.level + 1 :: CountLevel(files', l) == CountLevel(files, l)
  {
    hide CountLevel;
    CountAll(s.low, s.level);
    forall l: nat | l != s.level + 1
      ensures CountLevel(files', l) == CountLevel(files, l) - CountLevel(s.low, l)
    {
      CountAppend(files, s.News(last), l);
      CountAppend(s.low, s.high, l);
      CountNone(s.News(last), l);
      CountNone(s.high, l);
    }
    forall l: nat | l != s.level ensures CountLevel(s.low, l) == 0 { CountNone(s.low, l); }
  }
}

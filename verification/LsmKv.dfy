/**
  The whole store: memtable, levels of tables and value log together refine a map from keys to
  values, whatever is flushed and compacted in between.
 */
module LsmKv {
  import opened LsmTable
  import opened Options
  import opened LsmMerge
  import opened LsmLevels
  import opened LsmStore
  import opened BitPacking
  import S = SkipList

  /** A deletion mark counts as no value. */
  function Told(v: string): string {
    if v == S.DELETED then "" else v
  }

  lemma DeletedIsNone(v: string)
    ensures Told("~DELETED~") == "" && (v != "~DELETED~" ==> Told(v) == v)
  {
  }

  /** The value of a key: the memtable's if it has one that is not empty, else the one the levels show. */
  function Seen(m: map<nat, string>, files: seq<File>, vlog: seq<string>, k: nat): string {
    if k in m && m[k] != "" then Told(m[k])
    else
      match Shown(files, k)
      case None => ""
      case Some(e) => if e.offset < |vlog| then vlog[e.offset] else ""
  }

  /** Every stored offset leads to a record of the stored length. */
  ghost predicate Logged(files: seq<File>, vlog: seq<string>) {
    forall e | e in StoredEntries(files) :: e.offset < |vlog| && |vlog[e.offset]| == e.len
  }

  /** The record that a table leads to for a key. */
  function Record(f: File, vlog: seq<string>, k: nat): string {
    match Lookup(f.table.entries, k)
    case None => ""
    case Some(e) => if e.offset < |vlog| then vlog[e.offset] else ""
  }

  /** What get finds in the levels: the record of the first of the newest tables that hold the key. */
  function Fetched(files: seq<File>, vlog: seq<string>, k: nat): string {
    match Won(TablesOf(files), k)
    case None => ""
    case Some(item) => if item.entry.offset < |vlog| then vlog[item.entry.offset] else ""
  }

  /** In front of the version that counts, at v, the first holder with the same time stands at j. */
  ghost predicate Precedes(files: seq<File>, k: nat, j: nat, v: nat) {
    && j < v < |files| && IsVersion(files, k, files[v])
    && Holds(files[j], k) && files[j].table.time == files[v].table.time
    && forall i | 0 <= i < j && Holds(files[i], k) :: files[i].table.time != files[v].table.time
  }

  /** Such a holder, if there is one, leads to the same record. */
  ghost predicate TiesAgree(files: seq<File>, vlog: seq<string>, k: nat) {
    forall j: nat, v: nat | Precedes(files, k, j, v) :: Record(files[j], vlog, k) == Record(files[v], vlog, k)
  }

  /** Such a holder, if there is one, has a value exactly if the version that counts has one. */
  ghost predicate TiesLive(files: seq<File>, vlog: seq<string>, k: nat) {
    forall j: nat, v: nat | Precedes(files, k, j, v) :: Record(files[j], vlog, k) == "" <==> Record(files[v], vlog, k) == ""
  }

  lemma HolderIsStored(files: seq<File>, f: File, k: nat)
    requires f in files && Holds(f, k)
    ensures Lookup(f.table.entries, k).value in StoredEntries(files)
  {
  }

  lemma WonIsStored(files: seq<File>, k: nat)
    requires Won(TablesOf(files), k).Some?
    ensures Won(TablesOf(files), k).value.entry in StoredEntries(files)
  {
    var ts := TablesOf(files);
    var w := Winner(ts, k, |ts|);
    HolderIsStored(files, files[w], k);
  }

  /** Where the lookup stops when it does not stop at the version that counts. */
  lemma WinnerPrecedes(files: seq<File>, last: nat, tot: nat, h: Hash, k: nat, v: nat)
    requires Levelled(files, last, tot, h) && v < |files| && IsVersion(files, k, files[v])
    ensures var w := Winner(TablesOf(files), k, |files|);
      && 0 <= w <= v && (w != v ==> Precedes(files, k, w, v)) && forall j: nat | Precedes(files, k, j, v) :: j == w
  {
    var ts := TablesOf(files);
    var w := Winner(ts, k, |files|);
    WinnerIsNewest(ts, k, |files|);
    assert ts[v] == files[v].table;
    LookupIsVersionIff(files, last, tot, h, k, v);
    hide Levelled, IsVersion, Lookup, Winner;
    VersionHolds(files, k, files[v]);
    assert w >= 0 && ts[w] == files[w].table;
    if w != v {
      VersionIsNewest(files, last, tot, h, k, v, w);
      forall i | 0 <= i < w && Holds(files[i], k) ensures files[i].table.time != files[v].table.time {
        assert ts[i] == files[i].table;
      }
    }
    forall j: nat | Precedes(files, k, j, v) ensures j == w {
      assert ts[j] == files[j].table;
    }
  }

  lemma VersionHolds(files: seq<File>, k: nat, f: File)
    requires IsVersion(files, k, f)
    ensures f in files && Holds(f, k)
  {
  }

  /** The version that counts stands at one place in the list. */
  lemma VersionAt(files: seq<File>, last: nat, tot: nat, h: Hash, k: nat, v: nat, v': nat)
    requires Levelled(files, last, tot, h) && v < |files| && v' < |files|
    requires IsVersion(files, k, files[v]) && IsVersion(files, k, files[v'])
    ensures v == v'
  {
    assert v != v' ==> files[v].name != files[v'].name;
    hide IsVersion, Levelled;
    VersionIsUnique(files, last, tot, h, k);
  }

  lemma SeenIsRecord(files: seq<File>, last: nat, tot: nat, h: Hash, vlog: seq<string>, k: nat, v: nat)
    requires Levelled(files, last, tot, h) && Logged(files, vlog) && v < |files| && IsVersion(files, k, files[v])
    ensures Seen(map[], files, vlog, k) == Record(files[v], vlog, k)
  {
    VersionIsUnique(files, last, tot, h, k);
    VersionHolds(files, k, files[v]);
    HolderIsStored(files, files[v], k);
    hide Levelled, IsVersion, Lookup, Version, StoredEntries;
  }

  lemma FetchedIsRecord(files: seq<File>, vlog: seq<string>, k: nat)
    ensures var w := Winner(TablesOf(files), k, |files|);
      Fetched(files, vlog, k) == if w < 0 then "" else Record(files[w], vlog, k)
  {
    hide Lookup;
  }

  lemma NothingSeen(files: seq<File>, vlog: seq<string>, k: nat)
    requires Version(files, k).None?
    ensures Seen(map[], files, vlog, k) == "" == Fetched(files, vlog, k)
    ensures forall v: nat | v < |files| :: !Holds(files[v], k)
  {
    forall i | 0 <= i < |files| ensures Lookup(TablesOf(files)[i].entries, k).None? && !Holds(files[i], k) {
      assert files[i] in files;
    }
    NoWinner(TablesOf(files), k, |files|);
    FetchedIsRecord(files, vlog, k);
    hide Lookup, Version;
  }

  /**
    A lookup in the levels finds what they show exactly if no holder with the same time precedes the
    version that counts, or the first such holder leads to the same record; and it is right about
    whether there is a value exactly if the two records do not differ in that.
   */
  lemma LookupIsSeenIff(files: seq<File>, last: nat, tot: nat, h: Hash, vlog: seq<string>, k: nat)
    requires Levelled(files, last, tot, h) && Logged(files, vlog)
    ensures Fetched(files, vlog, k) == Seen(map[], files, vlog, k) <==> TiesAgree(files, vlog, k)
    ensures (Fetched(files, vlog, k) == "" <==> Seen(map[], files, vlog, k) == "") <==> TiesLive(files, vlog, k)
  {
    hide Levelled, Logged, Lookup, Winner, Won, Version, Seen, Fetched, Record, IsVersion, Holds;
    VersionIsUnique(files, last, tot, h, k);
    match Version(files, k)
    case None => {
      NothingSeen(files, vlog, k);
      forall j: nat, v: nat ensures !Precedes(files, k, j, v) {}
    }
    case Some(f) => {
      VersionHolds(files, k, f);
      var v :| 0 <= v < |files| && files[v] == f;
      WinnerPrecedes(files, last, tot, h, k, v);
      SeenIsRecord(files, last, tot, h, vlog, k, v);
      FetchedIsRecord(files, vlog, k);
      forall j: nat, v': nat | Precedes(files, k, j, v') ensures v' == v { VersionAt(files, last, tot, h, k, v, v'); }
      hide Precedes;
    }
  }

  // ---------- Writing the memtable out ----------

  ghost predicate Ascending(list: seq<(nat, string)>) {
    forall i, j | 0 <= i < j < |list| :: list[i].0 < list[j].0
  }

  /** The entries are those of the list, and lead to its values in the log. */
  ghost predicate Written(list: seq<(nat, string)>, entries: seq<Entry>, vlog: seq<string>) {
    && |entries| == |list|
    && forall i | 0 <= i < |list| ::
         && entries[i].key == list[i].0 && entries[i].len == |Told(list[i].1)|
         && entries[i].offset < |vlog| && vlog[entries[i].offset] == Told(list[i].1)
  }

  /** SSTable save: append every value to the log, a deletion as an empty one. */
  method WriteLog(list: seq<(nat, string)>, vlog0: seq<string>) returns (entries: seq<Entry>, vlog: seq<string>)
    ensures Written(list, entries, vlog) && vlog0 <= vlog
  {
    entries, vlog := [], vlog0;
    for i := 0 to |list|
      invariant Written(list[..i], entries, vlog) && vlog0 <= vlog
    {
      entries := entries + [Entry(list[i].0, |vlog|, |Told(list[i].1)|)];
      vlog := vlog + [Told(list[i].1)];
    }
    assert list[..|list|] == list;
  }

  /** What the memtable held is what the flushed entries say. */
  lemma FlushedEntry(m: map<nat, string>, list: seq<(nat, string)>, entries: seq<Entry>, vlog: seq<string>, k: nat)
    requires Ascending(list) && Written(list, entries, vlog) && Sorted(entries)
    requires forall x: nat, v :: (x, v) in list <==> x in m && m[x] == v
    ensures match Lookup(entries, k)
      case None => k !in m
      case Some(e) => k in m && e in entries && e.offset < |vlog| && vlog[e.offset] == Told(m[k]) && e.len == |Told(m[k])|
  {
    forall i | 0 <= i < |entries| ensures entries[i].key in m { assert list[i] == (list[i].0, list[i].1) && list[i] in list; }
    if k in m {
      assert (k, m[k]) in list;
      var i :| 0 <= i < |list| && list[i] == (k, m[k]);
      LookupAt(entries, i);
    }
  }

  /** Flushing the memtable changes the value of no key, except that an empty value now hides what is below. */
  lemma SavedIsSeen(m: map<nat, string>, list: seq<(nat, string)>, entries: seq<Entry>,
                    files: seq<File>, files': seq<File>, vlog: seq<string>, vlog': seq<string>, k: nat)
    requires Ascending(list) && Written(list, entries, vlog') && Sorted(entries) && vlog <= vlog'
    requires forall x: nat, v :: (x, v) in list <==> x in m && m[x] == v
    requires Logged(files, vlog)
    requires Shown(files', k) == match Lookup(entries, k)
               case None => Shown(files, k)
               case Some(e) => if e.len > 0 then Some(e) else None
    ensures Seen(map[], files', vlog', k) == if k in m && m[k] == "" then "" else Seen(m, files, vlog, k)
  {
    FlushedEntry(m, list, entries, vlog', k);
    hide Lookup;
    if k !in m && Shown(files, k).Some? {
      ShownIsStored(files, k);
    }
  }

  lemma ShownIsStored(files: seq<File>, k: nat)
    requires Shown(files, k).Some?
    ensures Shown(files, k).value in StoredEntries(files)
  {
    HolderIsStored(files, Version(files, k).value, k);
  }

  lemma StillLogged(files: seq<File>, files': seq<File>, list: seq<(nat, string)>, entries: seq<Entry>,
                    vlog: seq<string>, vlog': seq<string>)
    requires Logged(files, vlog) && Written(list, entries, vlog') && vlog <= vlog'
    requires StoredEntries(files') <= StoredEntries(files) + set e | e in entries
    ensures Logged(files', vlog')
  {
    hide StoredEntries;
  }

  // ---------- The store ----------

  class Kv {
    const disk: KVStore
    var mem: S.List
    var vlog: seq<string>

    ghost predicate Valid()
      reads this, mem, mem.all, disk
    {
      && mem.Valid() && disk.Valid() && mem.total < MAX_NUM
      && (forall k | k in mem.contents :: k <= KEY_MAX)
      && Logged(disk.sstFiles, vlog)
    }

    /** The map that the store stands for; keys without a value have the empty one. */
    ghost function View(k: nat): string
      reads this, mem, disk
    {
      Seen(mem.contents, disk.sstFiles, vlog, k)
    }

    constructor (h: Hash)
      ensures Valid() && fresh(mem) && fresh(mem.all) && fresh(disk) && forall k :: View(k) == ""
    {
      disk := new KVStore(h);
      mem := new S.List();
      vlog := [];
    }

    /** The memtable holds an empty value, which readers take for none. */
    ghost predicate Blank(k: nat)
      reads this, mem
    {
      k in mem.contents && mem.contents[k] == ""
    }

    /** Putting the key fills the memtable. */
    ghost predicate Fills(k: nat)
      reads this, mem
    {
      |mem.contents.Keys + {k}| == MAX_NUM
    }

    /** The value that the levels show. */
    ghost function Stored(k: nat): string
      reads this, disk
    {
      Seen(map[], disk.sstFiles, vlog, k)
    }

    /** get tells the value: the memtable decides, or the lookup in the levels finds what they show. */
    ghost predicate Exact(k: nat)
      reads this, mem, disk
    {
      (k in mem.contents && !Blank(k)) || TiesAgree(disk.sstFiles, vlog, k)
    }

    method Get(key: nat) returns (s: string)
      requires Valid()
      ensures s == View(key) <==> Exact(key)
      ensures s == if key in mem.contents && !Blank(key) then Told(mem.contents[key]) else Fetched(disk.sstFiles, vlog, key)
    {
      hide Logged, Won, TiesAgree, TiesLive, Levelled, Fetched;
      LookupIsSeenIff(disk.sstFiles, disk.SScnt, disk.totLevel, disk.h, vlog, key);
      s := mem.Get(key);
      if s == S.DELETED {
        return "";
      }
      if s == "" {
        s := Fetch(key);
      }
    }

    /** The record that the lookup in the levels leads to. */
    method Fetch(key: nat) returns (s: string)
      requires Valid()
      ensures s == Fetched(disk.sstFiles, vlog, key)
    {
      hide Won, Levelled, StoredEntries;
      var offset := disk.GetOffsetFromSSTable(key);
      s := "";
      if offset.Some? {
        WonIsStored(disk.sstFiles, key);
        s := vlog[offset.value];
      }
    }

    /** save: write the memtable out as a table of level 0, compact, and start with an empty memtable. */
    method Save()
      requires mem.Valid() && disk.Valid() && mem.total <= MAX_NUM && Logged(disk.sstFiles, vlog)
      requires forall k | k in mem.contents :: k <= KEY_MAX
      modifies this, disk
      ensures Valid() && mem.contents == map[] && fresh(mem) && fresh(mem.all)
      ensures forall k: nat | k <= KEY_MAX :: View(k) == if old(Blank(k)) then "" else old(View(k))
    {
      hide Logged, Seen, Written, Lookup, Sorted, StoredEntries, Shown, KVStore.Valid, S.List.Valid;
      var list := mem.GetAll();
      var entries, log := WriteLog(list, vlog);
      EntriesFit(mem.contents, list, entries, log);
      ghost var files, was := disk.sstFiles, vlog;
      disk.Save(entries);
      StillLogged(files, disk.sstFiles, list, entries, was, log);
      forall k: nat | k <= KEY_MAX 
        ensures Seen(map[], disk.sstFiles, log, k) ==
                if k in mem.contents && mem.contents[k] == "" then "" else Seen(mem.contents, files, was, k)
      {
        SavedIsSeen(mem.contents, list, entries, files, disk.sstFiles, was, log, k);
      }
      vlog := log;
      mem := new S.List();
    }

    /**
      put; a new key gets v levels in the memtable.  A value that is not empty is what the key then
      has.  An empty one is taken for no value: the key has what the levels show, until the memtable
      is written out; then it has none.
     */
    method Put(key: nat, s: string, v: nat)
      requires Valid() && key <= KEY_MAX && 1 <= v < S.MAX_LEVEL
      modifies this, mem, mem.all, disk
      ensures Valid() && (mem == old(mem) || fresh(mem)) && forall n | n in mem.all :: n in old(mem.all) || fresh(n)
      ensures forall k: nat | k <= KEY_MAX ::
                View(k) == (if k == key && s != "" then Told(s)
                            else if (k == key || old(Blank(k))) && old(Fills(key)) then ""
                            else if k == key then old(Stored(k))
                            else old(View(k)))
    {
      hide Logged, StoredEntries, Shown, KVStore.Valid, S.List.Valid;
      assert mem.contents[key := s].Keys == mem.contents.Keys + {key};
      mem.Put(key, s, v);
      var full := mem.IsFull();
      MemSize();
      if full {
        Save();
      }
    }

    lemma MemSize()
      requires mem.Valid()
      ensures |mem.contents| == mem.total
    {
      mem.CountsKeys();
    }

    lemma DelMeans(k: nat)
      requires Valid()
      ensures (Fetched(disk.sstFiles, vlog, k) == "" <==> Stored(k) == "") <==> TiesLive(disk.sstFiles, vlog, k)
    {
      hide Logged, Levelled, Fetched, Seen, TiesAgree, TiesLive;
      LookupIsSeenIff(disk.sstFiles, disk.SScnt, disk.totLevel, disk.h, vlog, k);
    }

    /** del tells whether the key has a value: an empty one in the memtable is taken for one. */
    ghost predicate Known(k: nat)
      reads this, mem, disk
    {
      if Blank(k) then Stored(k) != "" else k in mem.contents || TiesLive(disk.sstFiles, vlog, k)
    }

    /** del: says whether the key had a value, and leaves none. */
    method Del(key: nat, v: nat) returns (r: bool)
      requires Valid() && key <= KEY_MAX && 1 <= v < S.MAX_LEVEL
      modifies this, mem, mem.all, disk
      ensures Valid() && (mem == old(mem) || fresh(mem)) && forall n | n in mem.all :: n in old(mem.all) || fresh(n)
      ensures r == (old(View(key)) != "") && View(key) == "" <==> old(Known(key))
      ensures r == if key in old(mem.contents) then old(mem.contents)[key] != S.DELETED else old(Fetched(disk.sstFiles, vlog, key)) != ""
      ensures View(key) == if r then "" else old(View(key))
      ensures forall k: nat | k <= KEY_MAX && k != key :: View(k) == old(View(k)) || (old(Blank(k)) && View(k) == "")
    {
      hide Logged, StoredEntries, Shown, TiesAgree, TiesLive, Fetched, KVStore.Valid, S.List.Valid;
      DelMeans(key);
      var flag := mem.Del(key);
      if flag > 0 {
        return true;
      } else if flag == -1 {
        return false;
      }
      var s := Fetch(key);
      if s == "" {
        return false;
      }
      Put(key, S.DELETED, v);
      return true;
    }
  }

  lemma EntriesFit(m: map<nat, string>, list: seq<(nat, string)>, entries: seq<Entry>, vlog: seq<string>)
    requires Ascending(list) && Written(list, entries, vlog) && forall x: nat, v :: (x, v) in list <==> x in m && m[x] == v
    requires forall k | k in m :: k <= KEY_MAX
    ensures Sorted(entries) && (|entries| > 0 ==> entries[|entries| - 1].key <= KEY_MAX)
  {
    if |entries| > 0 {
      var last := list[|list| - 1];
      assert last == (last.0, last.1) && last in list;
    }
  }
}

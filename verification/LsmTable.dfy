/**
  One sorted table: entries in key order behind a header and a Bloom filter.  Lookup by binary
  search is exact, and the filter never excludes a stored key, also after it was saved and read
  back.  The hash function is an arbitrary parameter.
 */
module LsmTable {
  import opened BitPacking
  import opened Bytes
  import opened Options

  /** An offset into the value log; len 0 marks a deleted key. */
  datatype Entry = Entry(key: nat, offset: nat, len: nat)

  const KEY_MAX: nat := 0xFFFF_FFFF_FFFF_FFFF
  const MOD: nat := 65536

  // ---------- Sorted entries ----------

  ghost predicate Sorted(es: seq<Entry>) {
    forall i, j | 0 <= i < j < |es| :: es[i].key < es[j].key
  }

  ghost predicate Has(es: seq<Entry>, k: nat) {
    exists i :: 0 <= i < |es| && es[i].key == k
  }

  /** The entry stored under a key. */
  function Lookup(es: seq<Entry>, k: nat): (r: Option<Entry>)
    ensures r.Some? ==> r.value in es && r.value.key == k
    ensures r.None? ==> forall i | 0 <= i < |es| :: es[i].key != k
  {
    if |es| == 0 then None
    else if es[0].key == k then Some(es[0])
    else
      var r := Lookup(es[1..], k);
      assert r.None? ==> forall i | 1 <= i < |es| :: es[i] == es[1..][i - 1];
      r
  }

  lemma LookupAt(es: seq<Entry>, i: nat)
    requires Sorted(es) && i < |es|
    ensures Lookup(es, es[i].key) == Some(es[i])
  {
    var r := Lookup(es, es[i].key);
    assert r.Some?;
    var j :| 0 <= j < |es| && es[j] == r.value;
  }

  lemma HasIsLookup(es: seq<Entry>, k: nat)
    ensures Has(es, k) <==> Lookup(es, k).Some?
  {
    if Lookup(es, k).Some? {
      var j :| 0 <= j < |es| && es[j] == Lookup(es, k).value;
    }
  }

  /** getOffset: binary search with inclusive bounds; None stands for the all-ones offset. */
  method GetOffset(es: seq<Entry>, key: nat) returns (r: Option<nat>)
    requires Sorted(es)
    ensures r == match Lookup(es, key) case None => None case Some(e) => Some(e.offset)
  {
    var l, h := 0, |es| - 1;
    while l <= h
      invariant 0 <= l <= h + 1 <= |es|
      invariant forall i | 0 <= i < l :: es[i].key < key
      invariant forall i | h < i < |es| :: key < es[i].key
      decreases h - l
    {
      var mid := l + (h - l) / 2;
      if es[mid].key == key {
        LookupAt(es, mid);
        return Some(es[mid].offset);
      }
      if es[mid].key > key {
        h := mid - 1;
      } else {
        l := mid + 1;
      }
    }
    return None;
  }

  // ---------- The Bloom filter ----------

  type Hash = nat -> (nat, nat, nat, nat)

  /** find: all four flags of the key are set. */
  predicate Passes(flag: seq<bool>, h: Hash, key: nat)
    requires |flag| == MOD
  {
    var (a, b, c, d) := h(key);
    flag[a % MOD] && flag[b % MOD] && flag[c % MOD] && flag[d % MOD]
  }

  /** Flag i is one of the four of the key. */
  predicate Marks(h: Hash, key: nat, i: nat) {
    var (a, b, c, d) := h(key);
    i == a % MOD || i == b % MOD || i == c % MOD || i == d % MOD
  }

  class BloomFilter {
    const flag: array<bool>
    const hash: Hash

    ghost predicate Valid() { flag.Length == MOD }

    constructor (h: Hash)
      ensures Valid() && fresh(flag) && hash == h && flag[..] == seq(MOD, _ => false)
    {
      flag := new bool[MOD](_ => false);
      hash := h;
      new;
      assert flag[..] == seq(MOD, _ => false);
    }

    /** Reload the flags that Save wrote. */
    constructor Load(input: seq<Byte>, h: Hash)
      requires |input| == MOD / 8
      ensures Valid() && fresh(flag) && hash == h && flag[..] == Unpack(input)
    {
      flag := new bool[MOD](_ => false);
      hash := h;
      new;
      ghost var whole := Unpack(input);
      hide BitsOf, Unpack;
      for i := 0 to MOD / 8
        invariant flag.Length == MOD && forall j | 0 <= j < 8 * i :: flag[j] == whole[j]
      {
        var bits := BitsOf(input[i], 8);
        for k := 0 to 8
          invariant flag.Length == MOD && forall j | 0 <= j < 8 * i + k :: flag[j] == whole[j]
        {
          flag[8 * i + k] := bits[k];
          UnpackAt(input, i, k);
        }
      }
    }

    /** Every group of eight flags becomes one byte. */
    method Save() returns (out: seq<Byte>)
      requires Valid()
      ensures out == Pack(flag[..]) && |out| == MOD / 8
    {
      out := [];
      for i := 0 to MOD / 8
        invariant |out| == i && out == Pack(flag[..8 * i])
      {
        var bits := flag[8 * i..8 * i + 8];
        ByteRange(bits);
        PackWhole(flag[..8 * i], bits);
        assert flag[..8 * i] + bits == flag[..8 * (i + 1)];
        PackOne(bits);
        out := out + [Value(bits)];
      }
      assert flag[..8 * (MOD / 8)] == flag[..];
    }

    method Add(key: nat)
      requires Valid()
      modifies flag
      ensures Passes(flag[..], hash, key)
      ensures forall k | old(Passes(flag[..], hash, k)) :: Passes(flag[..], hash, k)
      ensures forall i | 0 <= i < MOD :: flag[i] <==> old(flag[i]) || Marks(hash, key, i)
    {
      var (a, b, c, d) := hash(key);
      flag[a % MOD] := true;
      flag[b % MOD] := true;
      flag[c % MOD] := true;
      flag[d % MOD] := true;
    }

    method Find(key: nat) returns (r: bool)
      requires Valid()
      ensures r == Passes(flag[..], hash, key)
    {
      var (a, b, c, d) := hash(key);
      r := flag[a % MOD] && flag[b % MOD] && flag[c % MOD] && flag[d % MOD];
    }
  }

  lemma PackOne(bits: seq<bool>)
    requires |bits| == 8
    ensures Value(bits) < 256 && Pack(bits) == [Value(bits)]
  {
    ByteRange(bits);
    assert bits[..8] == bits && bits[8..] == [];
    assert Pack(bits[8..]) == [];
  }

  lemma {:induction false} UnpackAt(input: seq<Byte>, i: nat, k: nat)
    requires i < |input| && k < 8
    ensures Unpack(input)[8 * i + k] == BitsOf(input[i], 8)[k]
  {
    if i > 0 {
      UnpackAt(input[1..], i - 1, k);
      assert Unpack(input) == BitsOf(input[0], 8) + Unpack(input[1..]);
    }
  }

  lemma {:induction false} PackLength(bits: seq<bool>)
    requires |bits| % 8 == 0
    ensures |Pack(bits)| == |bits| / 8
  {
    if |bits| > 0 { PackLength(bits[8..]); }
  }

  /** The flags that are read back are the flags that were saved. */
  lemma ReloadedFilterIsSame(flag: seq<bool>)
    requires |flag| == MOD
    ensures |Pack(flag)| == MOD / 8 && Unpack(Pack(flag)) == flag
  {
    PackLength(flag);
    UnpackPack(flag);
  }

  // ---------- Tables ----------

  /** time, entries and filter flags; smallest and largest key are the first and the last one. */
  datatype Table = Table(time: nat, entries: seq<Entry>, filter: seq<bool>) {
    function MinKey(): nat requires |entries| > 0 { entries[0].key }

    function MaxKey(): nat requires |entries| > 0 { entries[|entries| - 1].key }

    ghost predicate Covers(h: Hash) {
      |filter| == MOD && forall i | 0 <= i < |entries| :: Passes(filter, h, entries[i].key)
    }

    ghost predicate Ok(h: Hash) {
      0 < time && |entries| > 0 && Sorted(entries) && MaxKey() <= KEY_MAX && Covers(h)
    }

    ghost predicate Holds(k: nat) { Has(entries, k) }
  }

  /** The header range and the filter let every stored key through. */
  lemma NoStoredKeyIsSkipped(t: Table, h: Hash, k: nat)
    requires t.Ok(h) && t.Holds(k)
    ensures t.MinKey() <= k <= t.MaxKey() && Passes(t.filter, h, k)
  {
    var i :| 0 <= i < |t.entries| && t.entries[i].key == k;
  }

  /** The flags of all the keys. */
  ghost function FilterOf(es: seq<Entry>, h: Hash): seq<bool> {
    seq(MOD, (i: nat) => exists e | e in es :: Marks(h, e.key, i))
  }

  /** The table that is written for these entries. */
  ghost function Built(es: seq<Entry>, time: nat, h: Hash): Table { Table(time, es, FilterOf(es, h)) }

  ghost predicate IsBuilt(t: Table, h: Hash) { t.filter == FilterOf(t.entries, h) }

  /** A filter with the flags of all keys lets them through. */
  lemma BuiltIsOk(es: seq<Entry>, time: nat, h: Hash)
    requires 0 < time && |es| > 0 && Sorted(es) && es[|es| - 1].key <= KEY_MAX
    ensures Built(es, time, h).Ok(h)
  {
    var f := FilterOf(es, h);
    forall j | 0 <= j < |es| ensures Passes(f, h, es[j].key) {
      var (a, b, c, d) := h(es[j].key);
      assert es[j] in es && Marks(h, es[j].key, a % MOD) && Marks(h, es[j].key, b % MOD)
          && Marks(h, es[j].key, c % MOD) && Marks(h, es[j].key, d % MOD);
    }
  }

  /** Write a table and read it back: header fields, filter bytes and entries. */
  method FormTable(entries: seq<Entry>, time: nat, h: Hash) returns (t: Table)
    requires 0 < time && |entries| > 0 && Sorted(entries) && entries[|entries| - 1].key <= KEY_MAX
    ensures t.Ok(h) && t.time == time && t.entries == entries
    ensures IsBuilt(t, h)
  {
    hide Marks, Passes, Pack, Unpack, Table.Ok;
    var bf := new BloomFilter(h);
    for i := 0 to |entries|
      invariant bf.Valid() && bf.hash == h && fresh(bf.flag)
      invariant forall x | 0 <= x < MOD :: bf.flag[x] <==> exists j :: 0 <= j < i && Marks(h, entries[j].key, x)
    {
      bf.Add(entries[i].key);
    }
    var saved := bf.Save();
    ReloadedFilterIsSame(bf.flag[..]);
    var again := new BloomFilter.Load(saved, h);
    t := Table(time, entries, again.flag[..]);
    FlagsAre(bf.flag[..], entries, h);
    BuiltIsOk(entries, time, h);
  }

  lemma FlagsAre(flag: seq<bool>, es: seq<Entry>, h: Hash)
    requires |flag| == MOD && forall x | 0 <= x < MOD :: flag[x] <==> exists j :: 0 <= j < |es| && Marks(h, es[j].key, x)
    ensures flag == FilterOf(es, h)
  {
    hide Marks;
    forall x | 0 <= x < MOD ensures flag[x] == FilterOf(es, h)[x] {
      if flag[x] {
        var j :| 0 <= j < |es| && Marks(h, es[j].key, x);
        assert es[j] in es;
      }
    }
  }
}

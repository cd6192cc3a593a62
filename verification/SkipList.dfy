/**
  The skip list of the memtable: linked nodes with forward pointers on several levels, searched
  from the highest level down.  Whatever levels new nodes get, it behaves as a sorted map.
 */
module SkipList {

  const MAX_LEVEL := 17
  const MAX_NUM := 408
  const DELETED := "~DELETED~"

  class Node {
    const key: nat
    var value: string
    var forward: seq<Node?>

    constructor (key: nat, value: string)
      ensures this.key == key && this.value == value && forward == seq(MAX_LEVEL, _ => null)
    {
      this.key, this.value, this.forward := key, value, seq(MAX_LEVEL, _ => null);
    }
  }

  /** s with x put in at pos. */
  function Insert<X>(s: seq<X>, pos: nat, x: X): (r: seq<X>)
    requires pos <= |s|
    ensures |r| == |s| + 1 && r[pos] == x
    ensures forall i | 0 <= i < pos :: r[i] == s[i]
    ensures forall i | pos < i <= |s| :: r[i] == s[i - 1]
  {
    s[..pos] + [x] + s[pos..]
  }

  lemma InsertMembers<X>(s: seq<X>, pos: nat, x: X)
    requires pos <= |s|
    ensures forall y :: y in Insert(s, pos, x) <==> y in s || y == x
  {
  }

  // ---------- Levels ----------

  // Position 0 is the node `first`, on every level; position j > 0 is the j-th key.  h[j] is the
  // highest level of the node at j, and |h| stands for the node `last`.

  /** The first position from j on whose node is on the level. */
  function NextAt(h: seq<nat>, level: nat, j: nat): (k: nat)
    requires j <= |h|
    ensures j <= k <= |h|
    ensures k < |h| ==> h[k] >= level
    ensures forall x | j <= x < k :: h[x] < level
    decreases |h| - j
  {
    if j == |h| || h[j] >= level then j else NextAt(h, level, j + 1)
  }

  /** It is the only such position. */
  lemma NextIs(h: seq<nat>, level: nat, j: nat, k: nat)
    requires j <= k <= |h| && (k < |h| ==> h[k] >= level) && forall x | j <= x < k :: h[x] < level
    ensures NextAt(h, level, j) == k
  {
  }

  lemma NextBehind(h: seq<nat>, pos: nat, v: nat, level: nat, j: nat)
    requires pos <= j <= |h|
    ensures NextAt(Insert<nat>(h, pos, v), level, j + 1) == NextAt(h, level, j) + 1
  {
    hide NextAt, Insert;
    NextIs(Insert<nat>(h, pos, v), level, j + 1, NextAt(h, level, j) + 1);
  }

  lemma NextBefore(h: seq<nat>, pos: nat, v: nat, level: nat, j: nat)
    requires j <= pos <= |h| && NextAt(h, level, j) < pos
    ensures NextAt(Insert<nat>(h, pos, v), level, j) == NextAt(h, level, j)
  {
    hide NextAt, Insert;
    NextIs(Insert<nat>(h, pos, v), level, j, NextAt(h, level, j));
  }

  /** A step over pos now ends at the new node, if it is on that level. */
  lemma NextAcross(h: seq<nat>, pos: nat, v: nat, level: nat, j: nat)
    requires j <= pos <= |h| && NextAt(h, level, j) >= pos
    ensures NextAt(h, level, j) == NextAt(h, level, pos)
    ensures NextAt(Insert<nat>(h, pos, v), level, j) == if v >= level then pos else NextAt(h, level, pos) + 1
  {
    hide NextAt, Insert;
    var k := NextAt(h, level, j);
    NextIs(h, level, pos, k);
    NextIs(Insert<nat>(h, pos, v), level, j, if v >= level then pos else k + 1);
  }

  // ---------- Chains ----------

  type Pointers = p: seq<Node?> | |p| == MAX_LEVEL witness seq(MAX_LEVEL, _ => null)

  function NodeAt(all: seq<Node>, last: Node, k: nat): Node {
    if k < |all| then all[k] else last
  }

  /** On every level a node points to the next node of that level. */
  ghost predicate Linked(all: seq<Node>, fw: seq<Pointers>, h: seq<nat>, last: Node) {
    && |all| == |fw| == |h|
    && forall j, level | 0 <= j < |all| && 1 <= level <= h[j] && level < MAX_LEVEL ::
         fw[j][level] == NodeAt(all, last, NextAt(h, level, j + 1))
  }

  ghost predicate Sorted(all: seq<Node>) {
    forall j, k | 0 < j < k < |all| :: all[j].key < all[k].key
  }

  /** The map that keys and values spell. */
  ghost predicate Spells(all: seq<Node>, values: seq<string>, m: map<nat, string>) {
    && |all| == |values|
    && (forall j | 0 < j < |all| :: all[j].key in m && m[all[j].key] == values[j])
    && forall k | k in m :: exists j :: 0 < j < |all| && all[j].key == k
  }

  ghost predicate Distinct(all: seq<Node>, last: Node) {
    && (forall j, k | 0 <= j < k < |all| :: all[j] != all[k])
    && forall j | 0 <= j < |all| :: all[j] != last
  }

  /** At c the search for key leaves the level: c lies before the key, the next node on the level does not. */
  ghost predicate Stops(all: seq<Node>, h: seq<nat>, key: nat, level: nat, c: nat) {
    && |all| == |h| && c < |all| && h[c] >= level && (c > 0 ==> all[c].key < key)
    && (NextAt(h, level, c + 1) < |all| ==> all[NextAt(h, level, c + 1)].key >= key)
  }

  /** The search for key left level l at cs[l], and update[l] is that node. */
  ghost predicate Trail(all: seq<Node>, h: seq<nat>, update: seq<Node>, key: nat, cs: seq<nat>, lo: nat, hi: nat) {
    && |cs| == |update| == MAX_LEVEL && hi < MAX_LEVEL
    && forall l | lo <= l <= hi :: cs[l] < |all| && Stops(all, h, key, l, cs[l]) && update[l] == all[cs[l]]
  }

  /** Everything a list keeps, in terms of its nodes' pointers and values. */
  ghost predicate Good(all: seq<Node>, fw: seq<Pointers>, values: seq<string>, h: seq<nat>, last: Node, m: map<nat, string>) {
    Linked(all, fw, h, last) && Distinct(all, last) && Sorted(all) && Spells(all, values, m)
  }

  lemma KeyIsHeld(all: seq<Node>, values: seq<string>, m: map<nat, string>, k: nat, v: string)
    requires Spells(all, values, m)
    ensures k in m && m[k] == v <==> exists j :: 0 < j < |all| && all[j].key == k && values[j] == v
  {
  }

  /** The keys of the positions 1 to n. */
  ghost function KeysTo(all: seq<Node>, n: nat): set<nat>
    requires n < |all|
  {
    if n == 0 then {} else KeysTo(all, n - 1) + {all[n].key}
  }

  lemma {:induction false} InKeysTo(all: seq<Node>, n: nat, k: nat)
    requires n < |all|
    ensures k in KeysTo(all, n) <==> exists j :: 0 < j <= n && all[j].key == k
  {
    if n > 0 { InKeysTo(all, n - 1, k); }
  }

  lemma {:induction false} KeysOfPrefix(all: seq<Node>, n: nat)
    requires n < |all| && Sorted(all)
    ensures |KeysTo(all, n)| == n
  {
    if n > 0 {
      KeysOfPrefix(all, n - 1);
      InKeysTo(all, n - 1, all[n].key);
    }
  }

  // ---------- A value is replaced ----------

  lemma SpellsReplaced(all: seq<Node>, values: seq<string>, m: map<nat, string>, j: nat, v: string)
    requires Spells(all, values, m) && Sorted(all) && 0 < j < |all|
    ensures Spells(all, values[j := v], m[all[j].key := v])
  {
    var m' := m[all[j].key := v];
    forall k | k in m' ensures exists x :: 0 < x < |all| && all[x].key == k {
      if k in m { var x :| 0 < x < |all| && all[x].key == k; }
    }
  }

  // ---------- A node is put in ----------

  /** While the new node is linked in: done on the levels below i. */
  ghost predicate HalfLinked(all: seq<Node>, fw: seq<Pointers>, h: seq<nat>, last: Node, n: Node, cs: seq<nat>, i: nat) {
    && |all| == |fw| == |h| && |cs| == MAX_LEVEL
    && forall j, level | 0 <= j < |all| && 1 <= level <= h[j] && level < MAX_LEVEL ::
         fw[j][level] == if level < i && j == cs[level] then n else NodeAt(all, last, NextAt(h, level, j + 1))
  }

  /** The new node's own pointers below level i. */
  ghost predicate Points(p: Pointers, all: seq<Node>, h: seq<nat>, last: Node, pos: nat, i: nat) {
    && |all| == |h| && pos <= |h|
    && forall level | 1 <= level < i && level < MAX_LEVEL :: p[level] == NodeAt(all, last, NextAt(h, level, pos))
  }

  /** The places where the search left the levels 1 to v all lie before pos, and nothing of the level lies between. */
  ghost predicate Path(h: seq<nat>, pos: nat, v: nat, cs: seq<nat>) {
    && pos <= |h| && |cs| == MAX_LEVEL
    && forall l | 1 <= l <= v && l < MAX_LEVEL :: cs[l] < pos && h[cs[l]] >= l && NextAt(h, l, cs[l] + 1) >= pos
  }

  lemma TrailIsPath(all: seq<Node>, h: seq<nat>, update: seq<Node>, key: nat, cs: seq<nat>, v: nat, pos: nat)
    requires Trail(all, h, update, key, cs, 1, v) && 0 < pos <= |all| == |h|
    requires forall j | 0 < j < pos :: all[j].key < key
    requires forall j | pos <= j < |all| :: all[j].key >= key
    ensures Path(h, pos, v, cs) && forall l | 1 <= l <= v :: cs[l] < |all| && update[l] == all[cs[l]]
  {
    hide NextAt;
    forall l | 1 <= l <= v ensures cs[l] < pos && h[cs[l]] >= l && NextAt(h, l, cs[l] + 1) >= pos {
      assert Stops(all, h, key, l, cs[l]);
    }
  }

  lemma PathAt(h: seq<nat>, pos: nat, v: nat, cs: seq<nat>, i: nat)
    requires Path(h, pos, v, cs) && 1 <= i <= v < MAX_LEVEL
    ensures cs[i] < pos && h[cs[i]] >= i && NextAt(h, i, cs[i] + 1) == NextAt(h, i, pos)
  {
    NextAcross(h, pos, v, i, cs[i] + 1);
  }

  lemma OneLevelMore(all: seq<Node>, fw: seq<Pointers>, h: seq<nat>, last: Node, n: Node, p: Pointers,
                     cs: seq<nat>, pos: nat, v: nat, i: nat)
    requires Path(h, pos, v, cs) && 1 <= i <= v < MAX_LEVEL
    requires HalfLinked(all, fw, h, last, n, cs, i) && Points(p, all, h, last, pos, i)
    ensures cs[i] < |fw| && var c := cs[i];
      && HalfLinked(all, fw[c := fw[c][i := n]], h, last, n, cs, i + 1)
      && Points(p[i := fw[c][i]], all, h, last, pos, i + 1)
  {
    hide NextAt, Path, NodeAt, Points;
    PathAt(h, pos, v, cs, i);
    assert fw[cs[i]][i] == NodeAt(all, last, NextAt(h, i, pos));
    hide HalfLinked;
    PointsMore(p, all, h, last, pos, i);
    HalfMore(all, fw, h, last, n, cs, i);
  }

  lemma HalfMore(all: seq<Node>, fw: seq<Pointers>, h: seq<nat>, last: Node, n: Node, cs: seq<nat>, i: nat)
    requires HalfLinked(all, fw, h, last, n, cs, i) && 1 <= i < MAX_LEVEL && cs[i] < |fw|
    ensures HalfLinked(all, fw[cs[i] := fw[cs[i]][i := n]], h, last, n, cs, i + 1)
  {
    hide NextAt, NodeAt;
    var c := cs[i];
    assert forall j | 0 <= j < |fw| && j != c :: fw[c := fw[c][i := n]][j] == fw[j];
    assert forall level | 0 <= level < MAX_LEVEL && level != i :: fw[c][i := n][level] == fw[c][level];
  }

  lemma PointsMore(p: Pointers, all: seq<Node>, h: seq<nat>, last: Node, pos: nat, i: nat)
    requires Points(p, all, h, last, pos, i) && 1 <= i < MAX_LEVEL
    ensures Points(p[i := NodeAt(all, last, NextAt(h, i, pos))], all, h, last, pos, i + 1)
  {
    hide NextAt, NodeAt;
  }

  lemma BeforeNew(all: seq<Node>, h: seq<nat>, last: Node, n: Node, cs: seq<nat>, pos: nat, v: nat, j: nat, level: nat)
    requires |all| == |h| && Path(h, pos, v, cs) && j < pos && 1 <= level <= h[j] && level < MAX_LEVEL
    ensures (if level <= v && j == cs[level] then n else NodeAt(all, last, NextAt(h, level, j + 1)))
         == NodeAt(Insert<Node>(all, pos, n), last, NextAt(Insert<nat>(h, pos, v), level, j + 1))
  {
    hide NextAt, Insert;
    if NextAt(h, level, j + 1) < pos {
      NextBefore(h, pos, v, level, j + 1);
    } else {
      NextAcross(h, pos, v, level, j + 1);
    }
  }

  lemma BehindNew(all: seq<Node>, h: seq<nat>, last: Node, n: Node, pos: nat, v: nat, j: nat, level: nat)
    requires |all| == |h| && pos <= j <= |h|
    ensures NodeAt(all, last, NextAt(h, level, j)) == NodeAt(Insert<Node>(all, pos, n), last, NextAt(Insert<nat>(h, pos, v), level, j + 1))
  {
    hide NextAt, Insert;
    NextBehind(h, pos, v, level, j);
  }

  lemma LinkedMore(all: seq<Node>, fw: seq<Pointers>, h: seq<nat>, last: Node, n: Node, p: Pointers, cs: seq<nat>, pos: nat, v: nat)
    requires 0 < pos <= |h| && 1 <= v < MAX_LEVEL && Path(h, pos, v, cs)
    requires HalfLinked(all, fw, h, last, n, cs, v + 1) && Points(p, all, h, last, pos, v + 1)
    ensures Linked(Insert<Node>(all, pos, n), Insert<Pointers>(fw, pos, p), Insert<nat>(h, pos, v), last)
  {
    hide NextAt, Insert, NodeAt;
    var all', fw', h' := Insert<Node>(all, pos, n), Insert<Pointers>(fw, pos, p), Insert<nat>(h, pos, v);
    forall j, level | 0 <= j < |all'| && 1 <= level <= h'[j] && level < MAX_LEVEL
      ensures fw'[j][level] == NodeAt(all', last, NextAt(h', level, j + 1))
    {
      if j < pos {
        BeforeNew(all, h, last, n, cs, pos, v, j, level);
        assert fw'[j] == fw[j] && h'[j] == h[j];
        assert fw[j][level] == if level < v + 1 && j == cs[level] then n else NodeAt(all, last, NextAt(h, level, j + 1));
      } else if j == pos {
        BehindNew(all, h, last, n, pos, v, pos, level);
        assert fw'[j] == p && h'[j] == v;
        assert p[level] == NodeAt(all, last, NextAt(h, level, pos));
      } else {
        BehindNew(all, h, last, n, pos, v, j, level);
        var x := j - 1;
        assert fw'[j] == fw[x] && h'[j] == h[x];
        assert level <= v ==> cs[level] < pos;
        assert fw[x][level] == NodeAt(all, last, NextAt(h, level, x + 1));
      }
    }
  }

  lemma StayDistinct(all: seq<Node>, last: Node, n: Node, pos: nat)
    requires pos <= |all| && n !in all && n != last && Distinct(all, last)
    ensures Distinct(Insert<Node>(all, pos, n), last)
  {
    hide Insert;
    var r := Insert<Node>(all, pos, n);
    forall j | 0 <= j < |r| && j != pos ensures r[j] != n && r[j] != last {
      assert r[j] == all[if j < pos then j else j - 1];
    }
    forall j, k | 0 <= j < k < |r| ensures r[j] != r[k] {
      if j != pos && k != pos { assert r[j] == all[if j < pos then j else j - 1] && r[k] == all[if k < pos then k else k - 1]; }
    }
  }

  lemma StaySorted(all: seq<Node>, n: Node, pos: nat)
    requires 0 < pos <= |all| && Sorted(all)
    requires (forall j | 0 < j < pos :: all[j].key < n.key) && forall j | pos <= j < |all| :: all[j].key > n.key
    ensures Sorted(Insert<Node>(all, pos, n))
  {
    hide Insert;
    var r := Insert<Node>(all, pos, n);
    forall j, k | 0 < j < k < |r| ensures r[j].key < r[k].key {
      assert j != pos ==> r[j] == all[if j < pos then j else j - 1];
      assert k != pos ==> r[k] == all[if k < pos then k else k - 1];
    }
  }

  lemma SpellsMore(all: seq<Node>, values: seq<string>, m: map<nat, string>, n: Node, v: string, pos: nat)
    requires 0 < pos <= |all| && Spells(all, values, m) && n.key !in m
    ensures Spells(Insert<Node>(all, pos, n), Insert<string>(values, pos, v), m[n.key := v])
  {
    hide Insert;
    var r, vs, m' := Insert<Node>(all, pos, n), Insert<string>(values, pos, v), m[n.key := v];
    forall j | 0 < j < |r| ensures r[j].key in m' && m'[r[j].key] == vs[j] {
      if j != pos {
        var x := if j < pos then j else j - 1;
        assert r[j] == all[x] && vs[j] == values[x] && all[x].key in m;
      }
    }
    forall k | k in m' ensures exists j :: 0 < j < |r| && r[j].key == k {
      if k == n.key {
        assert r[pos].key == k;
      } else {
        var j :| 0 < j < |all| && all[j].key == k;
        assert r[if j < pos then j else j + 1].key == k;
      }
    }
  }

  /** With the new node linked in on its levels, the list keeps everything and the map has one more pair. */
  lemma GoodMore(all: seq<Node>, fw: seq<Pointers>, values: seq<string>, h: seq<nat>, last: Node, m: map<nat, string>,
                 n: Node, p: Pointers, value: string, cs: seq<nat>, pos: nat, v: nat)
    requires Distinct(all, last) && Sorted(all) && Spells(all, values, m) && n !in all && n != last && n.key !in m
    requires 0 < pos <= |h| && 1 <= v < MAX_LEVEL && Path(h, pos, v, cs)
    requires HalfLinked(all, fw, h, last, n, cs, v + 1) && Points(p, all, h, last, pos, v + 1)
    requires (forall j | 0 < j < pos :: all[j].key < n.key) && forall j | pos <= j < |all| :: all[j].key >= n.key
    ensures Good(Insert<Node>(all, pos, n), Insert<Pointers>(fw, pos, p), Insert<string>(values, pos, value), Insert<nat>(h, pos, v), last, m[n.key := value])
  {
    hide Insert, Linked, Distinct, Sorted, NextAt, Points, Path;
    forall j | pos <= j < |all| ensures all[j].key > n.key { assert all[j].key in m; }
    StayDistinct(all, last, n, pos);
    StaySorted(all, n, pos);
    SpellsMore(all, values, m, n, value, pos);
    LinkedMore(all, fw, h, last, n, p, cs, pos, v);
  }

  // ---------- The list ----------

  class List {
    const first: Node
    const last: Node
    var update: seq<Node>
    var maxLevel: nat
    var total: nat
    ghost var all: seq<Node>
    ghost var h: seq<nat>
    ghost var contents: map<nat, string>

    ghost predicate Shaped()
      reads this, all
    {
      && |all| == |h| == total + 1 && all[0] == first && h[0] == MAX_LEVEL - 1
      && 1 <= maxLevel < MAX_LEVEL && |update| == MAX_LEVEL
      && (forall j | 0 < j < |h| :: 1 <= h[j] <= maxLevel)
      && forall n | n in all :: |n.forward| == MAX_LEVEL
    }

    ghost function Forwards(): (r: seq<Pointers>)
      requires Shaped()
      reads this, all
      ensures |r| == |all| && forall j | 0 <= j < |all| :: r[j] == all[j].forward
    {
      seq(|all|, j requires 0 <= j < |all| && Shaped() reads this, all => all[j].forward)
    }

    ghost function Values(): (r: seq<string>)
      reads this, all
      ensures |r| == |all| && forall j | 0 <= j < |all| :: r[j] == all[j].value
    {
      seq(|all|, j requires 0 <= j < |all| reads this, all => all[j].value)
    }

    ghost predicate Valid()
      reads this, all
    {
      Shaped() && Good(all, Forwards(), Values(), h, last, contents)
    }

    constructor ()
      ensures Valid() && contents == map[] && total == 0 && fresh(all)
    {
      var f := new Node(0, "");
      first, maxLevel, total := f, 1, 0;
      last := new Node(0, "");
      update := seq(MAX_LEVEL, _ => f);
      new;
      var i := MAX_LEVEL - 1;
      while i >= 0
        invariant -1 <= i < MAX_LEVEL && |first.forward| == MAX_LEVEL && maxLevel == 1 && total == 0 && |update| == MAX_LEVEL
        invariant forall x | i < x < MAX_LEVEL :: first.forward[x] == last
        invariant first != last && fresh(first)
      {
        first.forward := first.forward[i := last];
        i := i - 1;
      }
      all, h, contents := [first], [MAX_LEVEL - 1], map[];
    }

    /** Where the node at c points on one of its levels. */
    lemma PointsTo(level: nat, c: nat)
      requires Valid() && c < |all| && 1 <= level <= h[c] && level < MAX_LEVEL
      ensures all[c].forward[level] == NodeAt(all, last, NextAt(h, level, c + 1))
      ensures NodeAt(all, last, NextAt(h, level, c + 1)) == last <==> NextAt(h, level, c + 1) == |all|
    {
      hide NextAt, Spells, Sorted;
      assert Forwards()[c] == all[c].forward;
    }

    /** On the lowest level every node points to the next one. */
    lemma NextOfBottom(c: nat)
      requires Valid() && c < |all|
      ensures NextAt(h, 1, c + 1) == c + 1 && all[c].forward[1] == NodeAt(all, last, c + 1)
      ensures (NodeAt(all, last, c + 1) == last <==> c + 1 == |all|) && |all[c].forward| == MAX_LEVEL
    {
      hide NextAt, Good;
      NextIs(h, 1, c + 1, c + 1);
      PointsTo(1, c);
    }

    lemma KeysAscend()
      requires Valid()
      ensures Sorted(all)
    {
      hide Linked, Distinct, Spells, Sorted;
    }

    /** One level of the search: forward while the next key is smaller. */
    method SearchLevel(from: Node, level: nat, key: nat, ghost c0: nat) returns (now: Node, ghost c: nat)
      requires Valid() && 1 <= level <= maxLevel
      requires c0 < |all| && from == all[c0] && h[c0] >= level && (c0 > 0 ==> all[c0].key < key)
      ensures c0 <= c && Stops(all, h, key, level, c) && now == all[c]
    {
      hide NextAt, Good;
      now, c := from, c0;
      PointsTo(level, c);
      while now.forward[level] != last && now.forward[level].key < key
        invariant c0 <= c < |all| && now == all[c] && h[c] >= level && (c > 0 ==> all[c].key < key)
        invariant now.forward[level] == NodeAt(all, last, NextAt(h, level, c + 1))
        invariant now.forward[level] == last <==> NextAt(h, level, c + 1) == |all|
        decreases |all| - c
      {
        now := now.forward[level];
        c := NextAt(h, level, c + 1);
        PointsTo(level, c);
      }
    }

    lemma Stopped(key: nat, level: nat, c: nat)
      requires Stops(all, h, key, level, c)
      ensures |all| == |h| && c < |all| && h[c] >= level && (c > 0 ==> all[c].key < key)
    {
    }

    /** Below the lowest level the search stands right before the place of the key. */
    lemma AtBottom(key: nat, c: nat)
      requires Valid() && Stops(all, h, key, 1, c)
      ensures forall j | 0 < j <= c :: all[j].key < key
      ensures forall j | c < j < |all| :: all[j].key >= key
      ensures all[c].forward[1] == NodeAt(all, last, c + 1)
    {
      hide NextAt, Good;
      NextOfBottom(c);
      KeysAscend();
    }

    /** The last node before the key, found level by level. */
    method Search(key: nat) returns (now: Node, ghost c: nat)
      requires Valid()
      ensures c < |all| && now == all[c] && (forall j | 0 < j <= c :: all[j].key < key)
      ensures forall j | c < j < |all| :: all[j].key >= key
      ensures now.forward[1] == NodeAt(all, last, c + 1)
    {
      hide NextAt, Good, Stops;
      now, c := first, 0;
      var i := maxLevel;
      while i >= 1
        invariant 0 <= i <= maxLevel && c < |all| && now == all[c] && h[c] >= i && (c > 0 ==> all[c].key < key)
        invariant i == 0 ==> Stops(all, h, key, 1, c)
      {
        now, c := SearchLevel(now, i, key, c);
        Stopped(key, i, c);
        i := i - 1;
      }
      AtBottom(key, c);
    }

    /** Behind c, the place where the search stopped, is the key or nothing of it. */
    lemma Found(key: nat, c: nat)
      requires Valid() && c < |all| && forall j | 0 < j <= c :: all[j].key < key
      requires forall j | c < j < |all| :: all[j].key >= key
      ensures key in contents <==> c + 1 < |all| && all[c + 1].key == key
      ensures c + 1 < |all| ==> all[c + 1].key in contents && contents[all[c + 1].key] == all[c + 1].value
      ensures NodeAt(all, last, c + 1) == last <==> c + 1 == |all|
    {
      hide NextAt, Linked;
      assert forall j | 0 <= j < |all| :: Values()[j] == all[j].value;
    }

    method Get(key: nat) returns (r: string)
      requires Valid()
      ensures r == if key in contents then contents[key] else ""
    {
      hide NextAt, Good;
      var now, c := Search(key);
      Found(key, c);
      now := now.forward[1];
      if now != last && now.key == key {
        r := now.value;
      } else {
        r := "";
      }
    }

    method SetValue(n: Node, val: string, ghost j: nat)
      requires Valid() && 0 < j < |all| && n == all[j]
      modifies this`contents, n`value
      ensures Valid() && contents == old(contents)[n.key := val]
    {
      hide NextAt, Linked, Distinct, Sorted, Spells;
      AreDistinct();
      SpellsReplaced(all, Values(), contents, j, val);
      ghost var fw, vs := Forwards(), Values();
      n.value := val;
      contents := contents[n.key := val];
      assert Forwards() == fw;
      assert Values() == vs[j := val];
    }

    lemma AreDistinct()
      requires Valid()
      ensures forall j, k | 0 <= j < k < |all| :: all[j] != all[k]
    {
      hide NextAt, Linked, Sorted, Spells;
    }

    /** -1 if the key is already marked as deleted, 0 if it is not in the list. */
    method Del(key: nat) returns (r: int)
      requires Valid()
      modifies this`contents, all
      ensures Valid() && r == if key !in old(contents) then 0 else if old(contents)[key] == DELETED then -1 else 1
      ensures contents == if r == 1 then old(contents)[key := DELETED] else old(contents)
    {
      hide NextAt, Good;
      var now, c := Search(key);
      var toBeDeleted := now.forward[1];
      Found(key, c);
      if toBeDeleted != last && toBeDeleted.key == key {
        if toBeDeleted.value != DELETED {
          SetValue(toBeDeleted, DELETED, c + 1);
        } else {
          return -1;
        }
        return 1;
      } else {
        return 0;
      }
    }

    // ---------- put ----------

    /** The search of put, which notes where it leaves each level. */
    method FindPath(key: nat) returns (now: Node, ghost c: nat, ghost cs: seq<nat>)
      requires Valid()
      modifies this`update
      ensures Valid() && c < |all| && now == all[c] && (forall j | 0 < j <= c :: all[j].key < key)
      ensures forall j | c < j < |all| :: all[j].key >= key
      ensures now.forward[1] == NodeAt(all, last, c + 1)
      ensures Trail(all, h, update, key, cs, 1, maxLevel)
    {
      hide NextAt, Good, Stops;
      now, c, cs := first, 0, seq(MAX_LEVEL, _ => 0);
      ghost var fw, vs := Forwards(), Values();
      var i := maxLevel;
      while i >= 1
        invariant Shaped() && Forwards() == fw && Values() == vs
        invariant 0 <= i <= maxLevel && c < |all| && now == all[c] && h[c] >= i && (c > 0 ==> all[c].key < key)
        invariant Trail(all, h, update, key, cs, i + 1, maxLevel)
        invariant i == 0 ==> Stops(all, h, key, 1, c)
      {
        now, c := SearchLevel(now, i, key, c);
        Stopped(key, i, c);
        update, cs := update[i := now], cs[i := c];
        i := i - 1;
      }
      AtBottom(key, c);
    }

    lemma OnlyFirst(level: nat, key: nat)
      requires Valid() && maxLevel < level < MAX_LEVEL
      ensures Stops(all, h, key, level, 0)
    {
      hide NextAt, Good;
      NextIs(h, level, 1, |h|);
    }

    /** A new highest level: until now only `first` is on it. */
    method Raise(v: nat, key: nat, ghost cs0: seq<nat>) returns (ghost cs: seq<nat>)
      requires Valid() && maxLevel < v < MAX_LEVEL && Trail(all, h, update, key, cs0, 1, maxLevel)
      modifies this`update, this`maxLevel
      ensures Valid() && maxLevel == v && Trail(all, h, update, key, cs, 1, maxLevel)
    {
      hide NextAt, Good, Stops;
      cs := cs0;
      ghost var fw, vs := Forwards(), Values();
      var i := maxLevel + 1;
      while i <= v
        invariant Shaped() && Forwards() == fw && Values() == vs && maxLevel == old(maxLevel) && maxLevel + 1 <= i <= v + 1
        invariant Trail(all, h, update, key, cs, 1, i - 1)
      {
        OnlyFirst(i, key);
        update, cs := update[i := first], cs[i := 0];
        i := i + 1;
      }
      maxLevel := v;
      assert Forwards() == fw && Values() == vs;
    }

    lemma Starts(n: Node, cs: seq<nat>, pos: nat)
      requires Valid() && 0 < pos <= |all| && |cs| == MAX_LEVEL && |n.forward| == MAX_LEVEL
      ensures HalfLinked(all, Forwards(), h, last, n, cs, 1) && Points(n.forward, all, h, last, pos, 1)
      ensures Distinct(all, last) && Sorted(all) && Spells(all, Values(), contents)
    {
      hide NextAt, Distinct, Sorted, Spells;
    }

    /** Link the node in between positions pos - 1 and pos, on the levels 1 to v. */
    method LinkLevels(n: Node, v: nat, ghost pos: nat, ghost cs: seq<nat>)
      requires Valid() && 1 <= v <= maxLevel && 0 < pos <= |all| && n !in all && |n.forward| == MAX_LEVEL
      requires Path(h, pos, v, cs) && forall l | 1 <= l <= v :: cs[l] < |all| && update[l] == all[cs[l]]
      modifies all, n
      ensures Shaped() && Values() == old(Values()) && |n.forward| == MAX_LEVEL && n.value == old(n.value)
      ensures HalfLinked(all, Forwards(), h, last, n, cs, v + 1) && Points(n.forward, all, h, last, pos, v + 1)
    {
      hide NextAt, Good, Linked, Spells, Sorted, Distinct, HalfLinked, Points, Path, Trail, Insert;
      PathSize(cs, pos, v);
      Starts(n, cs, pos);
      AreDistinct();
      var i := 1;
      while i <= v
        invariant 1 <= i <= v + 1 && Shaped() && Values() == old(Values()) && |n.forward| == MAX_LEVEL && n.value == old(n.value)
        invariant HalfLinked(all, Forwards(), h, last, n, cs, i) && Points(n.forward, all, h, last, pos, i)
      {
        ghost var fw, p, c := Forwards(), n.forward, cs[i];
        OneLevelMore(all, fw, h, last, n, p, cs, pos, v, i);
        assert update[i] == all[c];
        n.forward := n.forward[i := update[i].forward[i]];
        update[i].forward := update[i].forward[i := n];
        assert Forwards() == fw[c := fw[c][i := n]];
        assert Values() == old(Values());
        i := i + 1;
      }
    }

    lemma PathSize(cs: seq<nat>, pos: nat, v: nat)
      requires Path(h, pos, v, cs)
      ensures |cs| == MAX_LEVEL
    {
    }

    /** Put a new key's node between positions pos - 1 and pos. */
    method LinkIn(n: Node, v: nat, ghost pos: nat, ghost cs: seq<nat>)
      requires Valid() && 1 <= v <= maxLevel && 0 < pos <= |all|
      requires n !in all && n != last && |n.forward| == MAX_LEVEL && n.key !in contents
      requires forall j | 0 < j < pos :: all[j].key < n.key
      requires forall j | pos <= j < |all| :: all[j].key >= n.key
      requires Trail(all, h, update, n.key, cs, 1, maxLevel)
      modifies this, all, n
      ensures Valid() && contents == old(contents)[n.key := n.value]
      ensures total == old(total) + 1 && maxLevel == old(maxLevel) && n.value == old(n.value)
      ensures all == Insert<Node>(old(all), pos, n) && h == Insert<nat>(old(h), pos, v)
    {
      hide NextAt, Good, Linked, Spells, Sorted, Distinct, HalfLinked, Points, Path, Trail, Insert;
      LevelsOfTrail(n.key, cs, v, pos);
      Starts(n, cs, pos);
      LinkLevels(n, v, pos, cs);
      GoodMore(all, Forwards(), Values(), h, last, contents, n, n.forward, n.value, cs, pos, v);
      Grow(n, v, pos);
    }

    /** Count the node that has been linked in. */
    method Grow(n: Node, ghost v: nat, ghost pos: nat)
      requires Shaped() && 0 < pos <= |all| && 1 <= v <= maxLevel && |n.forward| == MAX_LEVEL
      requires Good(Insert<Node>(all, pos, n), Insert<Pointers>(Forwards(), pos, n.forward), Insert<string>(Values(), pos, n.value),
                    Insert<nat>(h, pos, v), last, contents[n.key := n.value])
      modifies this`total, this`all, this`h, this`contents
      ensures Valid() && contents == old(contents)[n.key := n.value]
      ensures total == old(total) + 1 && all == Insert<Node>(old(all), pos, n) && h == Insert<nat>(old(h), pos, v)
    {
      hide Good, Insert;
      ghost var fw, vs := Forwards(), Values();
      InsertMembers<Node>(all, pos, n);
      total := total + 1;
      all, h, contents := Insert<Node>(all, pos, n), Insert<nat>(h, pos, v), contents[n.key := n.value];
      assert Shaped();
      assert Forwards() == Insert<Pointers>(fw, pos, n.forward);
      assert Values() == Insert<string>(vs, pos, n.value);
    }

    lemma LevelsOfTrail(key: nat, cs: seq<nat>, v: nat, pos: nat)
      requires Valid() && 1 <= v <= maxLevel && 0 < pos <= |all| && Trail(all, h, update, key, cs, 1, maxLevel)
      requires forall j | 0 < j < pos :: all[j].key < key
      requires forall j | pos <= j < |all| :: all[j].key >= key
      ensures Path(h, pos, v, cs) && |cs| == MAX_LEVEL && forall l | 1 <= l <= v :: cs[l] < |all| && update[l] == all[cs[l]]
    {
      hide NextAt, Good, Stops, Path;
      TrailIsPath(all, h, update, key, cs, v, pos);
    }

    /** A node for the key has come to position pos, on v levels; the others have kept theirs. */
    ghost predicate NewAt(was: seq<Node>, heights: seq<nat>, pos: nat, key: nat, v: nat)
      reads this
    {
      && pos <= |was| == |heights| && pos < |all| && all[pos].key == key
      && all == Insert<Node>(was, pos, all[pos]) && h == Insert<nat>(heights, pos, v)
    }

    /** Set the value of a key; a new key gets a node on v levels. */
    method Put(key: nat, val: string, v: nat)
      requires Valid() && 1 <= v < MAX_LEVEL
      modifies this, all
      ensures Valid() && contents == old(contents)[key := val]
      ensures total == if key in old(contents) then old(total) else old(total) + 1
      ensures if key in old(contents) then all == old(all) && h == old(h) else exists pos :: NewAt(old(all), old(h), pos, key, v)
      ensures maxLevel == if key !in old(contents) && v > old(maxLevel) then v else old(maxLevel)
      ensures forall n | n in all :: n in old(all) || fresh(n)
    {
      hide NextAt, Good, Trail, Insert;
      var now, c, cs := FindPath(key);
      Found(key, c);
      now := now.forward[1];
      if now != last && now.key == key {
        SetValue(now, val, c + 1);
        return;
      }
      PutNew(key, val, v, c, cs);
    }

    lemma SameLength()
      requires Valid()
      ensures |all| == |h|
    {
    }

    /** A new key: make its node, raise the highest level if need be, and link the node in. */
    method PutNew(key: nat, val: string, v: nat, ghost c: nat, ghost cs0: seq<nat>)
      requires Valid() && 1 <= v < MAX_LEVEL && key !in contents && c < |all|
      requires forall j | 0 < j <= c :: all[j].key < key
      requires forall j | c < j < |all| :: all[j].key >= key
      requires Trail(all, h, update, key, cs0, 1, maxLevel)
      modifies this, all
      ensures Valid() && contents == old(contents)[key := val] && total == old(total) + 1
      ensures NewAt(old(all), old(h), c + 1, key, v) && maxLevel == if v > old(maxLevel) then v else old(maxLevel)
      ensures forall n | n in all :: n in old(all) || fresh(n)
    {
      hide Valid, Shaped, Trail, Insert;
      ghost var cs := cs0;
      var newNode := new Node(key, val);
      if v > maxLevel {
        cs := Raise(v, key, cs);
      }
      SameLength();
      InsertMembers<Node>(all, c + 1, newNode);
      LinkIn(newNode, v, c + 1, cs);
      assert all[c + 1] == newNode;
    }

    // ---------- The keys in order ----------

    /** The pairs of the positions behind c0 up to c. */
    lemma AreListed(res: seq<(nat, string)>, c0: nat, c: nat)
      requires Valid() && c0 <= c < |all| && |res| == c - c0
      requires forall i | 0 <= i < |res| :: res[i] == (all[c0 + 1 + i].key, all[c0 + 1 + i].value)
      ensures forall i, j | 0 <= i < j < |res| :: res[i].0 < res[j].0
      ensures forall k, v :: (k, v) in res <==> exists j :: c0 < j <= c && all[j].key == k && all[j].value == v
    {
      hide NextAt, Good;
      KeysAscend();
      forall k, v ensures (k, v) in res <==> exists j :: c0 < j <= c && all[j].key == k && all[j].value == v {
        if j :| c0 < j <= c && all[j].key == k && all[j].value == v {
          assert res[j - c0 - 1] == (k, v);
        }
      }
    }

    lemma HeldAt(k: nat, v: string)
      requires Valid()
      ensures k in contents && contents[k] == v <==> exists j :: 0 < j < |all| && all[j].key == k && all[j].value == v
    {
      hide NextAt, Linked, Distinct, Sorted, Spells;
      KeyIsHeld(all, Values(), contents, k, v);
      assert forall j | 0 <= j < |all| :: Values()[j] == all[j].value;
    }

    /** The pairs from st to ed in ascending order. */
    method Scan(st: nat, ed: nat) returns (res: seq<(nat, string)>)
      requires Valid()
      ensures forall i, j | 0 <= i < j < |res| :: res[i].0 < res[j].0
      ensures forall k, v :: (k, v) in res <==> st <= k <= ed && k in contents && contents[k] == v
    {
      hide Valid, Shaped, Forwards, Values, Good, NextAt;
      var now, c := Search(st);
      ghost var c0 := c;
      NextOfBottom(c);
      res := [];
      while now.forward[1] != last && now.forward[1].key <= ed
        invariant c0 <= c < |all| && now == all[c] && |now.forward| == MAX_LEVEL
        invariant now.forward[1] == NodeAt(all, last, c + 1) && |res| == c - c0
        invariant now.forward[1] == last <==> c + 1 == |all|
        invariant forall i | 0 <= i < |res| :: res[i] == (all[c0 + 1 + i].key, all[c0 + 1 + i].value)
        invariant c > c0 ==> all[c].key <= ed
        decreases |all| - c
      {
        now := now.forward[1];
        c := c + 1;
        res := res + [(now.key, now.value)];
        NextOfBottom(c);
      }
      AreListed(res, c0, c);
      InRange(st, ed, c0, c);
      forall k: nat, v ensures (k, v) in res <==> st <= k <= ed && k in contents && contents[k] == v {
        HeldAt(k, v);
      }
    }

    /** The positions behind c0 up to c are those of the keys from st to ed. */
    lemma InRange(st: nat, ed: nat, c0: nat, c: nat)
      requires Valid() && c0 <= c < |all| && (forall j | 0 < j <= c0 :: all[j].key < st)
      requires forall j | c0 < j < |all| :: all[j].key >= st
      requires (c > c0 ==> all[c].key <= ed) && (c + 1 < |all| ==> all[c + 1].key > ed)
      ensures forall j | 0 < j < |all| :: c0 < j <= c <==> st <= all[j].key <= ed
    {
      hide NextAt, Good;
      KeysAscend();
    }

    lemma Begins()
      requires Valid()
      ensures |all| == total + 1 && all[0] == first
    {
    }

    /** Every pair in ascending order. */
    method GetAll() returns (res: seq<(nat, string)>)
      requires Valid()
      ensures |res| == total && forall i, j | 0 <= i < j < |res| :: res[i].0 < res[j].0
      ensures forall k, v :: (k, v) in res <==> k in contents && contents[k] == v
    {
      hide Shaped, Forwards, Values, Good, NextAt;
      var now := first;
      ghost var c := 0;
      res := [];
      Begins();
      NextOfBottom(0);
      while now.forward[1] != last
        invariant 0 <= c < |all| && now == all[c] && |now.forward| == MAX_LEVEL
        invariant now.forward[1] == NodeAt(all, last, c + 1) && |res| == c
        invariant now.forward[1] == last <==> c + 1 == |all|
        invariant forall i | 0 <= i < |res| :: res[i] == (all[1 + i].key, all[1 + i].value)
        decreases |all| - c
      {
        now := now.forward[1];
        c := c + 1;
        res := res + [(now.key, now.value)];
        NextOfBottom(c);
      }
      AreListed(res, 0, c);
      forall k: nat, v ensures (k, v) in res <==> k in contents && contents[k] == v {
        HeldAt(k, v);
      }
    }

    method IsEmpty() returns (r: bool)
      requires Valid()
      ensures r <==> contents == map[]
    {
      hide NextAt, Good;
      NextOfBottom(0);
      r := first.forward[1] == last;
      if r {
        forall k: nat ensures k !in contents { if k in contents { HeldAt(k, contents[k]); } }
      } else {
        HeldAt(all[1].key, all[1].value);
      }
    }

    lemma CountsKeys()
      requires Valid()
      ensures |contents| == total
    {
      hide NextAt, Linked, Distinct;
      KeysOfPrefix(all, total);
      forall k: nat ensures k in contents <==> k in KeysTo(all, total) { InKeysTo(all, total, k); }
      assert contents.Keys == KeysTo(all, total);
    }

    method IsFull() returns (r: bool)
      requires Valid()
      ensures r <==> |contents| >= MAX_NUM
    {
      hide NextAt, Good;
      KeysAscend();
      CountsKeys();
      r := total >= MAX_NUM;
    }
  }
}

/**
  The compressed radix tree on values: a node carries the digits of a whole path without branches.
  Insertion splits labels and removal merges them; both keep a form that is determined by the
  stored set alone.
 */
module CompressedRadix {
  import opened Powers
  import opened RadixKeys

  /** Nil is the null pointer; value and len are the label and its length in bits. */
  datatype Tree = Nil | Node(value: nat, len: nat, chdNum: nat, kids: seq<Tree>)

  const NONE: seq<Tree> := [Nil, Nil, Nil, Nil]

  /** The digits of a node's label. */
  function Label(t: Tree): seq<nat>
    requires t.Node?
  {
    Digits(t.value, t.len)
  }

  function WithLabel(t: Tree, s: seq<nat>): Tree
    requires t.Node?
  {
    t.(value := Number(s), len := 2 * |s|)
  }

  function Leaf(s: seq<nat>): Tree { Node(Number(s), 2 * |s|, 0, NONE) }

  function One(t: Tree): nat { if t.Node? then 1 else 0 }

  function Count(kids: seq<Tree>): nat
    requires |kids| == 4
  {
    One(kids[0]) + One(kids[1]) + One(kids[2]) + One(kids[3])
  }

  // ---------- What the tree keeps ----------

  /** Below t, n digits are still to come. */
  ghost predicate Good(t: Tree, n: nat)
    decreases t, 0
  {
    && t.Node? && |t.kids| == 4 && t.chdNum == Count(t.kids)
    && forall i | 0 <= i < 4 && t.kids[i].Node? :: GoodKid(t.kids[i], i, n)
  }

  /** An inner node has at least two children, a leaf ends the key. */
  ghost predicate GoodKid(c: Tree, i: nat, n: nat)
    requires c.Node?
    decreases c, 1
  {
    && c.len % 2 == 0 && 2 <= c.len <= 2 * n && c.value < Pow2(c.len) && Label(c)[0] == i
    && Good(c, n - c.len / 2) && (if c.len == 2 * n then c.chdNum == 0 else c.chdNum >= 2)
  }

  // ---------- Membership ----------

  /** The rest of the key is found below t. */
  predicate Has(t: Tree, k: seq<nat>)
    decreases |k|
  {
    k == [] ||
    (t.Node? && k[0] < |t.kids| &&
     var c := t.kids[k[0]];
     c.Node? && 0 < |Label(c)| && Label(c) <= k && Has(c, k[|Label(c)|..]))
  }

  /** One step down. */
  lemma HasStep(t: Tree, k: seq<nat>, n: nat)
    requires Good(t, n) && Key(k, n) && n > 0
    ensures var c := t.kids[k[0]];
      Has(t, k) <==> c.Node? && Label(c) <= k && Has(c, k[|Label(c)|..])
  {
    assert t.kids[k[0]].Node? ==> GoodKid(t.kids[k[0]], k[0], n);
  }

  // ---------- Insertion ----------

  /** A new inner node for what the label and the key have in common. */
  function Split(c: Tree, k: seq<nat>): Tree
    requires c.Node? && AreDigits(k) && Common(Label(c), k) < |Label(c)| && Common(Label(c), k) < |k|
  {
    var m := Common(Label(c), k);
    var l, r := Label(c)[m..], k[m..];
    Node(Number(k[..m]), 2 * m, 2, NONE[r[0] := Leaf(r)][l[0] := WithLabel(c, l)])
  }

  function Insert(t: Tree, k: seq<nat>): (r: Tree)
    requires Good(t, |k|) && AreDigits(k)
    decreases |k|
  {
    if k == [] then t
    else
      var c := t.kids[k[0]];
      assert c.Node? ==> GoodKid(c, k[0], |k|);
      if c.Nil? then t.(kids := t.kids[k[0] := Leaf(k)], chdNum := t.chdNum + 1)
      else if Label(c) <= k then t.(kids := t.kids[k[0] := Insert(c, k[|Label(c)|..])])
      else
        CommonIsInside(Label(c), k);
        t.(kids := t.kids[k[0] := Split(c, k)])
  }

  lemma CommonIsInside(l: seq<nat>, k: seq<nat>)
    requires |l| <= |k| && !(l <= k)
    ensures Common(l, k) < |l| && Common(l, k) < |k|
  {
    assert l[..|l|] == l;
  }

  lemma LeafIsGood(k: seq<nat>, n: nat)
    requires Key(k, n) && n > 0
    ensures GoodKid(Leaf(k), k[0], n) && Label(Leaf(k)) == k && Leaf(k).kids == NONE
  {
    DigitsOfNumber(k);
    NumberBound(k);
  }

  /** A node keeps its children under a new label. */
  lemma RelabelIsGood(c: Tree, s: seq<nat>, n: nat)
    requires c.Node? && Good(c, n) && AreDigits(s) && |s| > 0 && (if n == 0 then c.chdNum == 0 else c.chdNum >= 2)
    ensures GoodKid(WithLabel(c, s), s[0], n + |s|) && Label(WithLabel(c, s)) == s
  {
    DigitsOfNumber(s);
    NumberBound(s);
    assert Good(WithLabel(c, s), n);
  }

  lemma TwoKidsAreGood(t: Tree, i: nat, a: Tree, j: nat, b: Tree, n: nat)
    requires t.Node? && i < 4 && j < 4 && i != j && t.kids == NONE[j := b][i := a] && t.chdNum == 2
    requires a.Node? && b.Node? && GoodKid(a, i, n) && GoodKid(b, j, n)
    ensures Good(t, n)
  {
    hide GoodKid;
  }

  /** The label's and the key's digits behind what they have in common. */
  lemma {:induction false} Tails(l: seq<nat>, k: seq<nat>)
    requires |l| <= |k| && !(l <= k) && AreDigits(l) && AreDigits(k)
    ensures var m := Common(l, k);
      && m < |l| && m < |k| && AreDigits(l[m..]) && AreDigits(k[m..]) && AreDigits(k[..m]) && l[m..][0] != k[m..][0]
      && l == k[..m] + l[m..] && k == k[..m] + k[m..]
    ensures |l| > 0 && l[0] == k[0] ==> Common(l, k) > 0
  {
    CommonIsInside(l, k);
    if |l| > 0 && l[0] == k[0] { FirstInCommon(l, k); }
  }

  lemma SplitIs(c: Tree, k: seq<nat>, m: nat)
    requires c.Node? && AreDigits(k) && m == Common(Label(c), k) && m < |Label(c)| && m < |k| && AreDigits(k[..m])
    ensures var s := Split(c, k);
      && s.Node? && s.len == 2 * m && s.value < Pow2(s.len) && s.chdNum == 2 && Label(s) == k[..m]
      && s.kids == NONE[k[m..][0] := Leaf(k[m..])][Label(c)[m..][0] := WithLabel(c, Label(c)[m..])]
  {
    hide Common;
    DigitsOfNumber(k[..m]);
    NumberBound(k[..m]);
  }

  lemma GoodLabel(c: Tree, i: nat, n: nat)
    requires c.Node? && GoodKid(c, i, n)
    ensures 0 < |Label(c)| == c.len / 2 <= n && AreDigits(Label(c)) && Label(c)[0] == i
    ensures Good(c, n - |Label(c)|) && (if |Label(c)| == n then c.chdNum == 0 else c.chdNum >= 2)
  {
  }

  lemma GoodKidOf(s: Tree, i: nat, n: nat)
    requires s.Node? && 0 < s.len / 2 < n && s.len % 2 == 0 && s.value < Pow2(s.len) && Label(s)[0] == i
    requires Good(s, n - s.len / 2) && s.chdNum >= 2
    ensures GoodKid(s, i, n)
  {
  }

  lemma SplitIsGood(c: Tree, k: seq<nat>, n: nat)
    requires c.Node? && Key(k, n) && n > 0 && GoodKid(c, k[0], n) && !(Label(c) <= k)
    ensures Common(Label(c), k) < |Label(c)| && Common(Label(c), k) < |k|
    ensures GoodKid(Split(c, k), k[0], n) && Label(Split(c, k)) == k[..Common(Label(c), k)]
  {
    hide Good, GoodKid, Common, Label, Split, Number;
    GoodLabel(c, k[0], n);
    Tails(Label(c), k);
    var m := Common(Label(c), k);
    var l, r, s := Label(c)[m..], k[m..], Split(c, k);
    SplitIs(c, k, m);
    LeafIsGood(r, n - m);
    RelabelIsGood(c, l, n - |Label(c)|);
    TwoKidsAreGood(s, l[0], WithLabel(c, l), r[0], Leaf(r), n - m);
    assert k[..m][0] == k[0];
    GoodKidOf(s, k[0], n);
  }

  lemma FirstInCommon(l: seq<nat>, k: seq<nat>)
    requires |l| > 0 && |k| > 0 && l[0] == k[0]
    ensures Common(l, k) > 0
  {
  }

  lemma {:induction false} InsertIsGood(t: Tree, k: seq<nat>, n: nat)
    requires Good(t, n) && Key(k, n)
    ensures Good(Insert(t, k), n) && Insert(t, k).chdNum >= t.chdNum
    ensures Insert(t, k).value == t.value && Insert(t, k).len == t.len
    decreases n
  {
    if n > 0 {
      hide Split, Digits, Number, Common, Pow2;
      var c, r := t.kids[k[0]], Insert(t, k);
      if c.Nil? {
        LeafIsGood(k, n);
      } else {
        assert GoodKid(c, k[0], n);
        if Label(c) <= k {
          InsertIsGood(c, k[|Label(c)|..], n - c.len / 2);
        } else {
          SplitIsGood(c, k, n);
        }
      }
      OneKidChanged(t, r, k[0], n);
    }
  }

  /** Replacing one child by a good one. */
  lemma OneKidChanged(t: Tree, r: Tree, i: nat, n: nat)
    requires Good(t, n) && i < 4 && r.Node? && |r.kids| == 4 && r.kids == t.kids[i := r.kids[i]]
    requires r.kids[i].Node? ==> GoodKid(r.kids[i], i, n)
    requires r.chdNum + One(t.kids[i]) == t.chdNum + One(r.kids[i])
    ensures Good(r, n)
  {
    hide GoodKid, Count;
    CountChanged(t.kids, i, r.kids[i]);
    forall j | 0 <= j < 4 && r.kids[j].Node? ensures GoodKid(r.kids[j], j, n) {
      if j != i { assert r.kids[j] == t.kids[j]; }
    }
  }

  lemma CountChanged(kids: seq<Tree>, i: nat, c: Tree)
    requires |kids| == 4 && i < 4
    ensures Count(kids[i := c]) + One(kids[i]) == Count(kids) + One(c)
  {
  }

  // ---------- What insertion adds ----------

  /** Membership below a node does not depend on its label. */
  lemma SameKids(a: Tree, b: Tree, k: seq<nat>)
    requires a.Node? && b.Node? && a.kids == b.kids
    ensures Has(a, k) <==> Has(b, k)
  {
  }

  /** The keys that come through child c. */
  ghost predicate Through(c: Tree, x: seq<nat>) {
    c.Node? && Label(c) <= x && Has(c, x[|Label(c)|..])
  }

  lemma HasIsThrough(t: Tree, x: seq<nat>, n: nat)
    requires Good(t, n) && Key(x, n) && n > 0
    ensures Has(t, x) <==> Through(t.kids[x[0]], x)
  {
    HasStep(t, x, n);
  }

  lemma LeafHas(k: seq<nat>, x: seq<nat>, n: nat)
    requires Key(k, n) && Key(x, n) && n > 0
    ensures Through(Leaf(k), x) <==> x == k
  {
    LeafIsGood(k, n);
  }

  lemma Relabelled(c: Tree, s: seq<nat>, x: seq<nat>)
    requires c.Node? && AreDigits(s)
    ensures Through(WithLabel(c, s), x) <==> s <= x && Has(c, x[|s|..])
  {
    DigitsOfNumber(s);
    if s <= x { SameKids(c, WithLabel(c, s), x[|s|..]); }
  }

  lemma Cut(p: seq<nat>, q: seq<nat>, x: seq<nat>)
    requires p <= x
    ensures q <= x[|p|..] <==> p + q <= x
    ensures q <= x[|p|..] ==> x[|p|..][|q|..] == x[|p + q|..]
  {
    if p + q <= x { assert x[..|p + q|][|p|..] == q; }
  }

  lemma ThroughStarts(a: Tree, y: seq<nat>)
    requires Through(a, y) && |Label(a)| > 0
    ensures y[0] == Label(a)[0]
  {
  }

  /** A node with two children leads to the keys of both. */
  lemma ForkHas(s: Tree, a: Tree, b: Tree, y: seq<nat>)
    requires a.Node? && b.Node? && |Label(a)| > 0 && |Label(b)| > 0 && Label(a)[0] != Label(b)[0]
    requires s.Node? && s.kids == NONE[Label(b)[0] := b][Label(a)[0] := a]
    requires |y| > 0 && y[0] < 4
    ensures Has(s, y) <==> Through(a, y) || Through(b, y)
  {
    if Through(a, y) { ThroughStarts(a, y); }
    if Through(b, y) { ThroughStarts(b, y); }
  }

  lemma JoinedIs(p: seq<nat>, r: seq<nat>, x: seq<nat>)
    requires p <= x
    ensures x == p + r <==> x[|p|..] == r
  {
    assert x == p + x[|p|..];
  }

  /** The old child below the new inner node is reached by the same keys as before. */
  lemma LowerThrough(c: Tree, p: seq<nat>, l: seq<nat>, x: seq<nat>)
    requires c.Node? && AreDigits(l) && Label(c) == p + l && p <= x
    ensures Through(WithLabel(c, l), x[|p|..]) <==> Through(c, x)
  {
    Relabelled(c, l, x[|p|..]);
    Cut(p, l, x);
  }

  lemma SplitThrough(c: Tree, k: seq<nat>, n: nat, x: seq<nat>, m: nat, l: seq<nat>, r: seq<nat>, s: Tree)
    requires c.Node? && Key(k, n) && Key(x, n) && m < n && |l| > 0 && |r| > 0 && l[0] != r[0] && AreDigits(l) && AreDigits(r)
    requires Label(c) == k[..m] + l && k == k[..m] + r
    requires s.Node? && s.kids == NONE[r[0] := Leaf(r)][l[0] := WithLabel(c, l)] && Label(s) == k[..m]
    ensures Through(s, x) <==> Through(c, x) || x == k
  {
    hide Has, Common, Digits, Number;
    var p := k[..m];
    if p <= x {
      assert |r| == n - m && |x[m..]| == n - m;
      DigitsOfNumber(l);
      DigitsOfNumber(r);
      ForkHas(s, WithLabel(c, l), Leaf(r), x[m..]);
      LowerThrough(c, p, l, x);
      LeafHas(r, x[m..], n - m);
      JoinedIs(p, r, x);
    } else {
      assert p <= k && p <= Label(c);
    }
  }

  lemma SplitHas(c: Tree, k: seq<nat>, n: nat, x: seq<nat>)
    requires c.Node? && Key(k, n) && n > 0 && GoodKid(c, k[0], n) && !(Label(c) <= k) && Key(x, n)
    ensures Common(Label(c), k) < |Label(c)| && Common(Label(c), k) < |k|
    ensures Through(Split(c, k), x) <==> Through(c, x) || x == k
  {
    hide Good, GoodKid, Common, Label, WithLabel, Leaf, Split, AreDigits, Number, Through;
    GoodLabel(c, k[0], n);
    Tails(Label(c), k);
    var m := Common(Label(c), k);
    SplitIs(c, k, m);
    SplitThrough(c, k, n, x, m, Label(c)[m..], k[m..], Split(c, k));
  }

  lemma {:induction false} InsertHas(t: Tree, k: seq<nat>, n: nat, x: seq<nat>)
    requires Good(t, n) && Key(k, n) && Key(x, n)
    ensures Has(Insert(t, k), x) <==> Has(t, x) || x == k
    decreases n
  {
    if n > 0 {
      InsertIsGood(t, k, n);
      HasIsThrough(t, x, n);
      HasIsThrough(Insert(t, k), x, n);
      var c := t.kids[k[0]];
      if x[0] == k[0] {
        if c.Nil? {
          LeafHas(k, x, n);
        } else {
          assert GoodKid(c, k[0], n);
          if Label(c) <= k { InsertThrough(c, k, n, x); } else { SplitHas(c, k, n, x); }
        }
      }
    }
  }

  lemma {:induction false} InsertThrough(c: Tree, k: seq<nat>, n: nat, x: seq<nat>)
    requires c.Node? && Key(k, n) && n > 0 && GoodKid(c, k[0], n) && Key(x, n) && Label(c) <= k
    ensures Through(Insert(c, k[|Label(c)|..]), x) <==> Through(c, x) || x == k
    decreases n, 0
  {
    hide Good, GoodKid, Has, Insert, Digits, Through, AreDigits;
    GoodLabel(c, k[0], n);
    var m := |Label(c)|;
    KeyIs(k, n);
    KeyIs(x, n);
    RestIsKey(k, n, m);
    InsertIsGood(c, k[m..], n - m);
    if Label(c) <= x {
      RestIsKey(x, n, m);
      InsertHas(c, k[m..], n - m, x[m..]);
      assert x == Label(c) + x[m..] && k == Label(c) + k[m..];
    } else {
      assert x != k;
    }
    GoodIsNode(Insert(c, k[m..]), n - m);
    ThroughIs(c, x);
    ThroughIs(Insert(c, k[m..]), x);
  }

  lemma GoodIsNode(t: Tree, n: nat)
    requires Good(t, n)
    ensures t.Node?
  {
  }

  lemma KeyIs(k: seq<nat>, n: nat)
    requires Key(k, n)
    ensures |k| == n && AreDigits(k)
  {
  }

  lemma ThroughIs(c: Tree, x: seq<nat>)
    requires c.Node?
    ensures Through(c, x) <==> Label(c) <= x && Has(c, x[|Label(c)|..])
  {
  }

  // ---------- Removal ----------

  /** The child of a node that has one. */
  function Only(kids: seq<Tree>): Tree
    requires |kids| == 4 && Count(kids) == 1
  {
    if kids[0].Node? then kids[0] else if kids[1].Node? then kids[1] else if kids[2].Node? then kids[2] else kids[3]
  }

  ghost predicate Counted(t: Tree) { t.Node? && |t.kids| == 4 && t.chdNum == Count(t.kids) }

  /** Put r back as child i: drop it if it is a leaf, and merge it with an only child. */
  function Put(t: Tree, i: nat, r: Tree): (u: Tree)
    requires Counted(t) && Counted(r) && i < 4 && t.kids[i].Node?
    ensures Counted(u) && u.value == t.value && u.len == t.len && t.chdNum <= u.chdNum + 1
  {
    if r.chdNum == 0 then t.(kids := t.kids[i := Nil], chdNum := t.chdNum - 1)
    else if r.chdNum == 1 then
      var cd := Only(r.kids);
      t.(kids := t.kids[i := WithLabel(cd, Label(r) + Label(cd))])
    else t.(kids := t.kids[i := r])
  }

  function Remove(t: Tree, k: seq<nat>): (r: Tree)
    requires Good(t, |k|) && AreDigits(k) && Has(t, k)
    ensures Counted(r) && r.value == t.value && r.len == t.len && t.chdNum <= r.chdNum + 1
    decreases |k|
  {
    if k == [] then t
    else
      var c := t.kids[k[0]];
      assert GoodKid(c, k[0], |k|);
      Put(t, k[0], Remove(c, k[|Label(c)|..]))
  }

  lemma OnlyIs(r: Tree, n: nat) returns (j: nat, cd: Tree)
    requires Good(r, n) && Count(r.kids) == 1
    ensures r.Node? && |r.kids| == 4 && Count(r.kids) == 1 && cd == Only(r.kids)
    ensures cd.Node? && j < 4 && r.kids[j] == cd && GoodKid(cd, j, n) && forall i | 0 <= i < 4 && i != j :: r.kids[i].Nil?
  {
    hide GoodKid;
    cd := Only(r.kids);
    j := if r.kids[0].Node? then 0 else if r.kids[1].Node? then 1 else if r.kids[2].Node? then 2 else 3;
  }

  /** The merged child. */
  lemma MergedIsGood(r: Tree, l: seq<nat>, n: nat)
    requires Good(r, n) && Count(r.kids) == 1 && AreDigits(l) && |l| > 0
    ensures var cd := Only(r.kids); var s := l + Label(cd);
      GoodKid(WithLabel(cd, s), l[0], n + |l|) && Label(WithLabel(cd, s)) == s
  {
    hide Good, GoodKid, Only, Label, Count, Number;
    var j, cd := OnlyIs(r, n);
    GoodLabel(cd, j, n);
    RelabelIsGood(cd, l + Label(cd), n - |Label(cd)|);
  }

  lemma {:induction false} RemoveIsGood(t: Tree, k: seq<nat>, n: nat)
    requires Good(t, n) && Key(k, n) && Has(t, k)
    ensures Good(Remove(t, k), n)
    decreases n
  {
    if n > 0 {
      var c := t.kids[k[0]];
      assert GoodKid(c, k[0], n);
      GoodLabel(c, k[0], n);
      var m := |Label(c)|;
      RemoveIsGood(c, k[m..], n - m);
      PutIsGood(t, k[0], c, Remove(c, k[m..]), n);
    }
  }

  lemma PutIsGood(t: Tree, i: nat, c: Tree, r: Tree, n: nat)
    requires Good(t, n) && i < 4 && n > 0 && t.kids[i] == c && c.Node? && GoodKid(c, i, n)
    requires Good(r, n - c.len / 2) && r.value == c.value && r.len == c.len && (c.len == 2 * n ==> r == c)
    ensures Good(Put(t, i, r), n)
  {
    GoodLabel(c, i, n);
    var m := |Label(c)|;
    if r.chdNum == 1 {
      MergedIsGood(r, Label(r), n - m);
    } else if r.chdNum >= 2 {
      GoodKidOf(r, i, n);
    }
    OneKidChanged(t, Put(t, i, r), i, n);
  }

  /** A node with one child leads to the keys of that child. */
  lemma OnlyHas(r: Tree, y: seq<nat>, n: nat)
    requires Good(r, n) && Count(r.kids) == 1 && Key(y, n) && n > 0
    ensures Has(r, y) <==> Through(Only(r.kids), y)
  {
    hide Good, GoodKid, Only, Label, Count, Has;
    HasIsThrough(r, y, n);
    var j, cd := OnlyIs(r, n);
    GoodLabel(cd, j, n);
    if Through(cd, y) { ThroughStarts(cd, y); }
  }

  lemma MergedThrough(r: Tree, l: seq<nat>, n: nat, x: seq<nat>)
    requires Good(r, n) && n > 0 && Count(r.kids) == 1 && AreDigits(l) && |l| > 0 && Key(x, n + |l|)
    ensures var cd := Only(r.kids);
      Through(WithLabel(cd, l + Label(cd)), x) <==> l <= x && Has(r, x[|l|..])
  {
    MergedIsGood(r, l, n);
    var cd := Only(r.kids);
    var s := l + Label(cd);
    var w := WithLabel(cd, s);
    assert Label(w) == s;
    if l <= x {
      OnlyHas(r, x[|l|..], n);
      Cut(l, Label(cd), x);
      if s <= x { SameKids(w, cd, x[|s|..]); }
    } else {
      assert l <= s;
    }
  }

  lemma {:induction false} RemoveHas(t: Tree, k: seq<nat>, n: nat, x: seq<nat>)
    requires Good(t, n) && n > 0 && Key(k, n) && Key(x, n) && Has(t, k)
    ensures Has(Remove(t, k), x) <==> Has(t, x) && x != k
    decreases n
  {
    RemoveIsGood(t, k, n);
    HasIsThrough(t, x, n);
    HasIsThrough(Remove(t, k), x, n);
    if x[0] == k[0] {
      var c := t.kids[k[0]];
      assert GoodKid(c, k[0], n);
      GoodLabel(c, k[0], n);
      PutThrough(t, c, k, n, x);
    }
  }

  lemma {:induction false} PutThrough(t: Tree, c: Tree, k: seq<nat>, n: nat, x: seq<nat>)
    requires Good(t, n) && n > 0 && Key(k, n) && Key(x, n) && Has(t, k) && x[0] == k[0]
    requires t.kids[k[0]] == c && c.Node? && GoodKid(c, k[0], n) && Label(c) <= k
    ensures Through(Remove(t, k).kids[k[0]], x) <==> Through(c, x) && x != k
    decreases n, 0
  {
    hide *;
    RestIsGood(t, c, k, n);
    var m := |Label(c)|;
    var r := Remove(c, k[m..]);
    RemoveIsGood(c, k[m..], n - m);
    if m == n {
      LeafRemoved(t, c, k, n, x);
    } else {
      if Label(c) <= x {
        RestIsKey(x, n, m);
        RemoveHas(c, k[m..], n - m, x[m..]);
      }
      RestRemoved(t, c, k, n, x, r);
    }
  }

  lemma RestIsKey(x: seq<nat>, n: nat, m: nat)
    requires Key(x, n) && m <= n
    ensures Key(x[m..], n - m)
  {
  }

  lemma RestIsGood(t: Tree, c: Tree, k: seq<nat>, n: nat)
    requires Good(t, n) && n > 0 && Key(k, n) && Has(t, k) && t.kids[k[0]] == c && c.Node? && GoodKid(c, k[0], n)
    ensures 0 < |Label(c)| <= n && Label(c) <= k && AreDigits(Label(c)) && Counted(t)
    ensures Good(c, n - |Label(c)|) && Key(k[|Label(c)|..], n - |Label(c)|) && Has(c, k[|Label(c)|..])
    ensures Remove(t, k) == Put(t, k[0], Remove(c, k[|Label(c)|..]))
    ensures |Label(c)| < n ==> c.chdNum >= 2
  {
  }

  lemma LeafRemoved(t: Tree, c: Tree, k: seq<nat>, n: nat, x: seq<nat>)
    requires Good(t, n) && n > 0 && Key(k, n) && Key(x, n) && Has(t, k) && x[0] == k[0]
    requires t.kids[k[0]] == c && c.Node? && GoodKid(c, k[0], n) && Label(c) <= k && |Label(c)| == n
    ensures Through(Remove(t, k).kids[k[0]], x) <==> Through(c, x) && x != k
  {
    assert Remove(c, k[n..]) == c;
  }

  lemma RestRemoved(t: Tree, c: Tree, k: seq<nat>, n: nat, x: seq<nat>, r: Tree)
    requires Counted(t) && n > 0 && Key(k, n) && Key(x, n) && x[0] == k[0] && Counted(r)
    requires t.kids[k[0]] == c && c.Node? && 0 < |Label(c)| < n && AreDigits(Label(c)) && Label(c) <= k
    requires r.value == c.value && r.len == c.len && r.chdNum >= 1 && Good(r, n - |Label(c)|)
    requires Label(c) <= x ==> (Has(r, x[|Label(c)|..]) <==> Has(c, x[|Label(c)|..]) && x[|Label(c)|..] != k[|Label(c)|..])
    ensures Through(Put(t, k[0], r).kids[k[0]], x) <==> Through(c, x) && x != k
  {
    hide Good, Has;
    var m := |Label(c)|;
    JoinedIs(Label(c), k[m..], k);
    if Label(c) <= x { JoinedIs(Label(c), k[m..], x); }
    if r.chdNum == 1 { MergedThrough(r, Label(c), n - m, x); }
  }

  // ---------- Counting nodes ----------

  function Nodes(t: Tree): nat {
    if t.Nil? then 0
    else if |t.kids| != 4 then 1
    else 1 + Nodes(t.kids[0]) + Nodes(t.kids[1]) + Nodes(t.kids[2]) + Nodes(t.kids[3])
  }

  function Below(kids: seq<Tree>): nat
    requires |kids| == 4
  {
    Nodes(kids[0]) + Nodes(kids[1]) + Nodes(kids[2]) + Nodes(kids[3])
  }

  lemma NodesIs(t: Tree)
    requires t.Node? && |t.kids| == 4
    ensures Nodes(t) == 1 + Below(t.kids)
  {
  }

  /** How many nodes an insertion makes. */
  function Added(t: Tree, k: seq<nat>): nat
    requires Good(t, |k|) && AreDigits(k)
    decreases |k|
  {
    if k == [] then 0
    else
      var c := t.kids[k[0]];
      assert c.Node? ==> GoodKid(c, k[0], |k|);
      if c.Nil? then 1 else if Label(c) <= k then Added(c, k[|Label(c)|..]) else 2
  }

  lemma OneKidCounts(t: Tree, r: Tree, i: nat)
    requires t.Node? && r.Node? && |t.kids| == 4 && i < 4 && |r.kids| == 4 && r.kids == t.kids[i := r.kids[i]]
    ensures Nodes(r) + Nodes(t.kids[i]) == Nodes(t) + Nodes(r.kids[i])
  {
    hide Nodes, Below;
    NodesIs(t);
    NodesIs(r);
    BelowChanged(t.kids, i, r.kids[i]);
  }

  lemma BelowChanged(kids: seq<Tree>, i: nat, c: Tree)
    requires |kids| == 4 && i < 4
    ensures Below(kids[i := c]) + Nodes(kids[i]) == Below(kids) + Nodes(c)
  {
    hide Nodes;
    if i == 0 {
    } else if i == 1 {
    } else if i == 2 {
    } else {
    }
  }

  lemma RelabelledCount(c: Tree, s: seq<nat>)
    requires c.Node?
    ensures Nodes(WithLabel(c, s)) == Nodes(c)
  {
  }

  lemma LeafCount(s: seq<nat>)
    ensures Nodes(Leaf(s)) == 1
  {
  }

  lemma NothingBelow()
    ensures Nodes(Nil) == 0 && Below(NONE) == 0
  {
  }

  lemma {:induction false} ForkCount(s: Tree, i: nat, a: Tree, j: nat, b: Tree)
    requires s.Node? && i < 4 && j < 4 && i != j && s.kids == NONE[j := b][i := a]
    ensures Nodes(s) == 1 + Nodes(a) + Nodes(b)
  {
    hide Nodes, Below;
    NothingBelow();
    NodesIs(s);
    BelowChanged(NONE, j, b);
    BelowChanged(NONE[j := b], i, a);
  }

  lemma {:induction false} SplitCounts(c: Tree, k: seq<nat>, m: nat)
    requires c.Node? && AreDigits(k) && m == Common(Label(c), k) && m < |Label(c)| && m < |k| && AreDigits(k[..m])
    ensures Nodes(Split(c, k)) == Nodes(c) + 2
  {
    var l, r := Label(c)[m..], k[m..];
    hide Nodes, Split, Common, Digits, Number, WithLabel, Leaf;
    SplitIs(c, k, m);
    RelabelledCount(c, l);
    LeafCount(r);
    ForkCount(Split(c, k), l[0], WithLabel(c, l), r[0], Leaf(r));
  }

  lemma {:induction false} InsertCounts(t: Tree, k: seq<nat>, n: nat)
    requires Good(t, n) && Key(k, n)
    ensures Nodes(Insert(t, k)) == Nodes(t) + Added(t, k)
    decreases n
  {
    if n > 0 {
      var c := t.kids[k[0]];
      if c.Node? {
        assert GoodKid(c, k[0], n);
        GoodLabel(c, k[0], n);
        if Label(c) <= k {
          InsertCounts(c, k[|Label(c)|..], n - |Label(c)|);
        } else {
          Tails(Label(c), k);
          SplitCounts(c, k, Common(Label(c), k));
        }
      } else {
        assert Nodes(Leaf(k)) == 1;
      }
      OneKidCounts(t, Insert(t, k), k[0]);
    }
  }

  lemma PutCounts(t: Tree, i: nat, r: Tree)
    requires Counted(t) && Counted(r) && i < 4 && t.kids[i].Node?
    ensures Nodes(Put(t, i, r)) + Nodes(t.kids[i]) == Nodes(t) + Nodes(r) - if r.chdNum <= 1 then 1 else 0
  {
    OneKidCounts(t, Put(t, i, r), i);
    if r.chdNum == 1 {
      var cd := Only(r.kids);
      assert Nodes(WithLabel(cd, Label(r) + Label(cd))) == Nodes(cd);
    }
  }
}

/**
  The compressed radix tree of a set is unique: two trees in good order with the same keys are the
  same tree, node for node.
 */
module RadixShape {
  import opened Powers
  import opened RadixKeys
  import opened CompressedRadix

  ghost predicate SameKeys(a: Tree, b: Tree, n: nat) {
    forall k | Key(k, n) :: Has(a, k) <==> Has(b, k)
  }

  // ---------- Every node leads to a key ----------

  lemma {:induction false} SomeKey(t: Tree, n: nat) returns (k: seq<nat>)
    requires Good(t, n) && (n > 0 ==> t.chdNum > 0)
    ensures Key(k, n) && Has(t, k)
    decreases n, 1
  {
    if n == 0 {
      k := [];
    } else {
      var i := SomeKid(t);
      k := KeyThrough(t, i, n);
    }
  }

  lemma SomeKid(t: Tree) returns (i: nat)
    requires Counted(t) && t.chdNum > 0
    ensures i < 4 && t.kids[i].Node?
  {
    i := if t.kids[0].Node? then 0 else if t.kids[1].Node? then 1 else if t.kids[2].Node? then 2 else 3;
  }

  /** A key that starts with the digit of a given child. */
  lemma {:induction false} KeyThrough(t: Tree, i: nat, n: nat) returns (k: seq<nat>)
    requires Good(t, n) && n > 0 && i < 4 && t.kids[i].Node?
    ensures Key(k, n) && k[0] == i && Has(t, k)
    decreases n, 0
  {
    var c := t.kids[i];
    assert GoodKid(c, i, n);
    GoodLabel(c, i, n);
    var m := |Label(c)|;
    var rest := SomeKey(c, n - m);
    k := Label(c) + rest;
    KeyBehind(t, c, i, n, rest);
  }

  /** The keys through a child are its label followed by what is found below it. */
  lemma KeyBehind(t: Tree, c: Tree, i: nat, n: nat, rest: seq<nat>)
    requires Good(t, n) && n > 0 && i < 4 && t.kids[i] == c && c.Node? && GoodKid(c, i, n)
    requires Key(rest, n - |Label(c)|)
    ensures Key(Label(c) + rest, n) && (Label(c) + rest)[0] == i
    ensures Has(t, Label(c) + rest) <==> Has(c, rest)
  {
    GoodLabel(c, i, n);
    hide Good, GoodKid, Has, Label;
    var k := Label(c) + rest;
    assert Key(k, n);
    HasIsThrough(t, k, n);
    assert k[|Label(c)|..] == rest;
  }

  lemma TwoKids(t: Tree) returns (i: nat, j: nat)
    requires Counted(t) && t.chdNum >= 2
    ensures i < j < 4 && t.kids[i].Node? && t.kids[j].Node?
  {
    i := if t.kids[0].Node? then 0 else if t.kids[1].Node? then 1 else 2;
    j := if t.kids[3].Node? then 3 else if t.kids[2].Node? then 2 else 1;
  }

  // ---------- Labels are determined by the keys ----------

  lemma BothThere(a: Tree, b: Tree, i: nat, n: nat)
    requires Good(a, n) && Good(b, n) && n > 0 && SameKeys(a, b, n) && i < 4 && a.kids[i].Node?
    ensures b.kids[i].Node?
  {
    var k := KeyThrough(a, i, n);
    HasIsThrough(b, k, n);
  }

  /** A key below c is also one below d, so it begins with d's label. */
  lemma BeginsAlike(a: Tree, b: Tree, i: nat, n: nat, c: Tree, d: Tree, rest: seq<nat>)
    requires Good(a, n) && Good(b, n) && n > 0 && SameKeys(a, b, n) && i < 4
    requires a.kids[i] == c && b.kids[i] == d && c.Node? && d.Node? && GoodKid(c, i, n)
    requires Key(rest, n - |Label(c)|) && Has(c, rest)
    ensures Label(d) <= Label(c) + rest
  {
    KeyBehind(a, c, i, n, rest);
    HasIsThrough(b, Label(c) + rest, n);
  }

  lemma Branching(p: seq<nat>, q: seq<nat>, k: seq<nat>, l: seq<nat>)
    requires q <= p + k && q <= p + l && |k| > 0 && |l| > 0 && k[0] != l[0]
    ensures |q| <= |p|
  {
    assert (p + k)[|p|] == k[0] && (p + l)[|p|] == l[0];
  }

  /** An inner node leads to two keys that differ in the first digit. */
  lemma TwoBranches(c: Tree, n: nat) returns (k: seq<nat>, l: seq<nat>)
    requires Good(c, n) && n > 0 && c.chdNum >= 2
    ensures Key(k, n) && Key(l, n) && Has(c, k) && Has(c, l) && |k| > 0 && |l| > 0 && k[0] != l[0]
  {
    GoodIsCounted(c, n);
    hide Good, Has, Count;
    var x, y := TwoKids(c);
    k := KeyThrough(c, x, n);
    l := KeyThrough(c, y, n);
  }

  /** If c's label were shorter, its keys would branch where d's label goes on. */
  lemma NotShorter(a: Tree, b: Tree, i: nat, n: nat, c: Tree, d: Tree)
    requires Good(a, n) && Good(b, n) && n > 0 && SameKeys(a, b, n) && i < 4
    requires a.kids[i] == c && b.kids[i] == d && c.Node? && d.Node? && GoodKid(c, i, n) && GoodKid(d, i, n)
    ensures |Label(c)| >= |Label(d)|
  {
    hide *;
    GoodLabel(c, i, n);
    GoodLabel(d, i, n);
    if |Label(c)| < n {
      var k, l := TwoBranches(c, n - |Label(c)|);
      BeginsAlike(a, b, i, n, c, d, k);
      BeginsAlike(a, b, i, n, c, d, l);
      Branching(Label(c), Label(d), k, l);
    }
  }

  lemma GoodIsCounted(t: Tree, n: nat)
    requires Good(t, n)
    ensures Counted(t)
  {
  }

  lemma {:induction false} SameLabels(a: Tree, b: Tree, i: nat, n: nat, c: Tree, d: Tree)
    requires Good(a, n) && Good(b, n) && n > 0 && SameKeys(a, b, n) && i < 4
    requires a.kids[i] == c && b.kids[i] == d && c.Node? && d.Node? && GoodKid(c, i, n) && GoodKid(d, i, n)
    ensures Label(c) == Label(d)
  {
    GoodLabel(c, i, n);
    hide Good, GoodKid, Has, Label, SameKeys, Key, AreDigits, Count;
    NotShorter(a, b, i, n, c, d);
    Turned(a, b, n);
    NotShorter(b, a, i, n, d, c);
    var rest := SomeKey(c, n - |Label(c)|);
    BeginsAlike(a, b, i, n, c, d, rest);
    PrefixesMeet(Label(c), Label(d), rest);
  }

  lemma PrefixesMeet(p: seq<nat>, q: seq<nat>, rest: seq<nat>)
    requires q <= p + rest && |p| == |q|
    ensures p == q
  {
    assert (p + rest)[..|p|] == p;
  }

  lemma Turned(a: Tree, b: Tree, n: nat)
    requires SameKeys(a, b, n)
    ensures SameKeys(b, a, n)
  {
  }

  lemma SameBelow(a: Tree, b: Tree, i: nat, n: nat, c: Tree, d: Tree)
    requires Good(a, n) && Good(b, n) && n > 0 && SameKeys(a, b, n) && i < 4
    requires a.kids[i] == c && b.kids[i] == d && c.Node? && d.Node? && GoodKid(c, i, n) && GoodKid(d, i, n)
    requires Label(c) == Label(d) && |Label(c)| <= n
    ensures SameKeys(c, d, n - |Label(c)|)
  {
    hide Good, GoodKid, Has, Label;
    forall rest | Key(rest, n - |Label(c)|) ensures Has(c, rest) <==> Has(d, rest) {
      KeyBehind(a, c, i, n, rest);
      KeyBehind(b, d, i, n, rest);
    }
  }

  // ---------- The tree is determined by the keys ----------

  lemma {:induction false} SameKid(a: Tree, b: Tree, i: nat, n: nat)
    requires Good(a, n) && Good(b, n) && n > 0 && SameKeys(a, b, n) && i < 4
    ensures a.kids[i] == b.kids[i]
    decreases n, 0
  {
    var c, d := a.kids[i], b.kids[i];
    if c.Node? { BothThere(a, b, i, n); }
    if d.Node? {
      Turned(a, b, n);
      BothThere(b, a, i, n);
      assert GoodKid(c, i, n) && GoodKid(d, i, n);
      GoodLabel(c, i, n);
      SameLabels(a, b, i, n, c, d);
      SameBelow(a, b, i, n, c, d);
      SameSetSameTree(c, d, n - |Label(c)|);
      SameNode(c, d, i, n);
    }
  }

  lemma SameNode(c: Tree, d: Tree, i: nat, n: nat)
    requires c.Node? && d.Node? && GoodKid(c, i, n) && GoodKid(d, i, n) && Label(c) == Label(d) && c.kids == d.kids
    ensures c == d
  {
    assert c.len == d.len;
    SameDigits(c.value, d.value, c.len);
  }

  /** Nothing but the set of keys decides the shape. */
  lemma {:induction false} SameSetSameTree(a: Tree, b: Tree, n: nat)
    requires Good(a, n) && Good(b, n) && SameKeys(a, b, n)
    ensures a.kids == b.kids && a.chdNum == b.chdNum
    decreases n, 1
  {
    forall i: nat | i < 4 ensures a.kids[i] == b.kids[i] {
      if n > 0 { SameKid(a, b, i, n); } else { NoKids(a, i); NoKids(b, i); }
    }
    assert a.kids == b.kids;
  }

  lemma NoKids(t: Tree, i: nat)
    requires Good(t, 0) && i < 4
    ensures t.kids[i].Nil?
  {
  }
}

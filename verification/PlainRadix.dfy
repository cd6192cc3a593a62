/**
  The plain radix tree on values: one node for every digit of every stored key.
 */
module PlainRadix {
  import opened RadixKeys

  datatype Tree = Nil | Node(chdNum: nat, kids: seq<Tree>)

  const EMPTY := Node(0, [Nil, Nil, Nil, Nil])

  function One(t: Tree): nat { if t.Node? then 1 else 0 }

  function Count(kids: seq<Tree>): nat
    requires |kids| == 4
  {
    One(kids[0]) + One(kids[1]) + One(kids[2]) + One(kids[3])
  }

  /** All paths have n digits, and no inner node is without a child. */
  ghost predicate Good(t: Tree, n: nat)
    decreases t, 0
  {
    && t.Node? && |t.kids| == 4 && t.chdNum == Count(t.kids)
    && forall i | 0 <= i < 4 && t.kids[i].Node? :: GoodKid(t.kids[i], n)
  }

  ghost predicate GoodKid(c: Tree, n: nat)
    decreases c, 1
  {
    n > 0 && Good(c, n - 1) && (n > 1 ==> c.chdNum > 0)
  }

  predicate Has(t: Tree, k: seq<nat>)
    decreases |k|
  {
    k == [] || (t.Node? && k[0] < |t.kids| && t.kids[k[0]].Node? && Has(t.kids[k[0]], k[1..]))
  }

  // ---------- Insertion ----------

  function Insert(t: Tree, k: seq<nat>): (r: Tree)
    requires Good(t, |k|) && AreDigits(k)
    ensures r.Node? && |r.kids| == 4 && (|k| > 0 ==> r.chdNum > 0)
    decreases |k|
  {
    if k == [] then t
    else
      var c := t.kids[k[0]];
      assert c.Node? ==> GoodKid(c, |k|);
      if c.Nil? then t.(kids := t.kids[k[0] := Insert(EMPTY, k[1..])], chdNum := t.chdNum + 1)
      else
        assert t.chdNum > 0;
        t.(kids := t.kids[k[0] := Insert(c, k[1..])])
  }

  /** Replacing one child by a good one or by none. */
  lemma OneKidChanged(t: Tree, r: Tree, i: nat, n: nat)
    requires Good(t, n) && i < 4 && r.Node? && |r.kids| == 4 && r.kids == t.kids[i := r.kids[i]]
    requires r.kids[i].Node? ==> GoodKid(r.kids[i], n)
    requires r.chdNum + One(t.kids[i]) == t.chdNum + One(r.kids[i])
    ensures Good(r, n)
  {
    hide GoodKid;
    forall j | 0 <= j < 4 && r.kids[j].Node? ensures GoodKid(r.kids[j], n) {
      if j != i { assert r.kids[j] == t.kids[j]; }
    }
  }

  lemma {:induction false} InsertIsGood(t: Tree, k: seq<nat>, n: nat)
    requires Good(t, n) && Key(k, n)
    ensures Good(Insert(t, k), n)
    decreases n
  {
    if n > 0 {
      var c := t.kids[k[0]];
      assert c.Node? ==> GoodKid(c, n);
      InsertIsGood(if c.Nil? then EMPTY else c, k[1..], n - 1);
      OneKidChanged(t, Insert(t, k), k[0], n);
    }
  }

  lemma {:induction false} EmptyHas(k: seq<nat>)
    ensures Has(EMPTY, k) <==> k == []
  {
  }

  lemma {:induction false} InsertHas(t: Tree, k: seq<nat>, n: nat, x: seq<nat>)
    requires Good(t, n) && Key(k, n) && Key(x, n)
    ensures Has(Insert(t, k), x) <==> Has(t, x) || x == k
    decreases n
  {
    if n > 0 {
      var c := t.kids[k[0]];
      assert c.Node? ==> GoodKid(c, n);
      if x[0] == k[0] {
        InsertHas(if c.Nil? then EMPTY else c, k[1..], n - 1, x[1..]);
        assert x == [x[0]] + x[1..] && k == [k[0]] + k[1..];
        EmptyHas(x[1..]);
      }
    }
  }

  // ---------- Removal ----------

  /** The nodes of the key go, from the leaf up to the first one that has another child. */
  function Remove(t: Tree, k: seq<nat>): (r: Tree)
    requires Good(t, |k|) && AreDigits(k) && Has(t, k)
    ensures r.Node? && |r.kids| == 4
    decreases |k|
  {
    if k == [] then t
    else
      var c := t.kids[k[0]];
      assert GoodKid(c, |k|);
      var r := Remove(c, k[1..]);
      if r.chdNum == 0 then t.(kids := t.kids[k[0] := Nil], chdNum := t.chdNum - 1)
      else t.(kids := t.kids[k[0] := r])
  }

  lemma {:induction false} RemoveIsGood(t: Tree, k: seq<nat>, n: nat)
    requires Good(t, n) && Key(k, n) && Has(t, k)
    ensures Good(Remove(t, k), n)
    decreases n
  {
    if n > 0 {
      assert GoodKid(t.kids[k[0]], n);
      RemoveIsGood(t.kids[k[0]], k[1..], n - 1);
      OneKidChanged(t, Remove(t, k), k[0], n);
    }
  }

  lemma {:induction false} RemoveHas(t: Tree, k: seq<nat>, n: nat, x: seq<nat>)
    requires Good(t, n) && n > 0 && Key(k, n) && Key(x, n) && Has(t, k)
    ensures Has(Remove(t, k), x) <==> Has(t, x) && x != k
    decreases n
  {
    if x[0] == k[0] {
      var c := t.kids[k[0]];
      assert GoodKid(c, n);
      RemoveIsGood(c, k[1..], n - 1);
      assert x == [x[0]] + x[1..] && k == [k[0]] + k[1..];
      if n > 1 {
        RemoveHas(c, k[1..], n - 1, x[1..]);
        if Remove(c, k[1..]).chdNum == 0 { Childless(Remove(c, k[1..]), x[1..]); }
      } else {
        assert x[1..] == k[1..];
        Childless(c, x[1..]);
      }
    }
  }

  lemma Childless(t: Tree, x: seq<nat>)
    requires t.Node? && |t.kids| == 4 && t.chdNum == Count(t.kids) && t.chdNum == 0
    ensures Has(t, x) <==> x == []
  {
  }
}

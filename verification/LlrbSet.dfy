/**
  The set of red_black_tree.hpp on linked nodes that are rewritten in place.  Every operation
  does to the nodes what the functions of Llrb do to the tree they stand for.
 */
module LlrbSet {
  import L = Llrb

  class Node {
    var key: int
    var lc: Node?
    var rc: Node?
    var size: nat
    var red: bool
    ghost var repr: set<Node>

    constructor (key: int, red: bool, size: nat)
      ensures Valid() && Value() == L.Node(red, size, key, L.Nil, L.Nil) && fresh(repr)
    {
      this.key, this.red, this.size := key, red, size;
      lc, rc := null, null;
      repr := {this};
    }

    /** The nodes below this one form a tree: no node is shared. */
    ghost predicate Valid()
      reads this, repr
      decreases repr
    {
      && this in repr
      && (lc != null ==> lc in repr && lc.repr < repr && this !in lc.repr && lc.Valid())
      && (rc != null ==> rc in repr && rc.repr < repr && this !in rc.repr && rc.Valid())
      && Footprint(lc) !! Footprint(rc)
    }

    ghost function Value(): (t: L.Tree)
      requires Valid()
      reads this, repr
      ensures t.Node?
      decreases repr
    {
      L.Node(red, size, key, if lc == null then L.Nil else lc.Value(), if rc == null then L.Nil else rc.Value())
    }
  }

  lemma Open(n: Node)
    requires n.Valid()
    ensures IsTree(n.lc) && IsTree(n.rc) && n !in Footprint(n.lc) && n !in Footprint(n.rc)
    ensures Footprint(n.lc) !! Footprint(n.rc) && Footprint(n.lc) <= n.repr && Footprint(n.rc) <= n.repr && n in n.repr
    ensures (n.lc != null ==> n.lc in n.lc.repr) && (n.rc != null ==> n.rc in n.rc.repr)
    ensures n.Value() == L.Node(n.red, n.size, n.key, ValueOf(n.lc), ValueOf(n.rc))
  {
  }

  ghost function Footprint(n: Node?): set<Node>
    reads n
  {
    if n == null then {} else n.repr
  }

  ghost predicate IsTree(n: Node?)
    reads n, Footprint(n)
  {
    n == null || n.Valid()
  }

  ghost function ValueOf(n: Node?): (t: L.Tree)
    requires IsTree(n)
    reads n, Footprint(n)
    ensures t.Nil? <==> n == null
  {
    if n == null then L.Nil else n.Value()
  }

  method IsRed(n: Node?) returns (r: bool)
    requires IsTree(n)
    ensures r == ValueOf(n).IsRed()
  {
    r := n != null && n.red;
  }

  method SizeOf(n: Node?) returns (r: nat)
    requires IsTree(n)
    ensures r == ValueOf(n).Size()
  {
    if n == null { r := 0; } else { r := n.size; }
  }

  lemma RotatedLeft(red: bool, size: nat, key: int, a: L.Tree, red': bool, size': nat, key': int, b: L.Tree, c: L.Tree)
    ensures L.RotateLeft(L.Node(red, size, key, a, L.Node(red', size', key', b, c))) ==
            L.Node(red, size, key', L.Node(true, a.Size() + b.Size() + 1, key, a, b), c)
  {
  }

  /** Give a node two child trees, a colour and a size. */
  method SetChildren(n: Node, l: Node?, r: Node?, red: bool, size: nat)
    requires IsTree(l) && IsTree(r) && n !in Footprint(l) && n !in Footprint(r) && Footprint(l) !! Footprint(r)
    modifies n
    ensures n.Valid() && n.repr == {n} + old(Footprint(l)) + old(Footprint(r)) && n.key == old(n.key)
    ensures n.lc == l && n.rc == r
    ensures n.Value() == L.Node(red, size, n.key, old(ValueOf(l)), old(ValueOf(r)))
  {
    hide Node.Valid, Node.Value;
    Apart(n, l);
    Apart(n, r);
    n.repr := {n} + Footprint(l) + Footprint(r);
    n.lc, n.rc, n.red, n.size := l, r, red, size;
    Close(n);
  }

  lemma Apart(n: Node, l: Node?)
    requires IsTree(l) && n !in Footprint(l)
    ensures l != n && (l != null ==> l in Footprint(l))
  {
  }

  lemma Close(n: Node)
    requires IsTree(n.lc) && IsTree(n.rc) && n !in Footprint(n.lc) && n !in Footprint(n.rc)
    requires (n.lc != null ==> n.lc in Footprint(n.lc)) && (n.rc != null ==> n.rc in Footprint(n.rc))
    requires Footprint(n.lc) !! Footprint(n.rc) && n.repr == {n} + Footprint(n.lc) + Footprint(n.rc)
    ensures n.Valid() && n.Value() == L.Node(n.red, n.size, n.key, ValueOf(n.lc), ValueOf(n.rc))
  {
  }

  method RotateLeft(node: Node) returns (res: Node)
    requires node.Valid() && node.rc != null
    modifies node.repr
    ensures res.Valid() && res.repr <= old(node.repr)
    ensures res.Value() == L.RotateLeft(old(node.Value()))
  {
    hide Node.Valid, Node.Value, L.RotateLeft, L.Tree.Size;
    Open(node);
    res := node.rc;
    Open(res);
    var l, m, r := node.lc, res.lc, res.rc;
    var a := SizeOf(l);
    var b := SizeOf(m);
    var red, size := node.red, node.size;
    RotatedLeft(red, size, node.key, ValueOf(l), res.red, res.size, res.key, ValueOf(m), ValueOf(r));
    SetChildren(node, l, m, true, a + b + 1);
    SetChildren(res, node, r, red, size);
  }

  lemma RotatedRight(red: bool, size: nat, key: int, red': bool, size': nat, key': int, a: L.Tree, b: L.Tree, c: L.Tree)
    ensures L.RotateRight(L.Node(red, size, key, L.Node(red', size', key', a, b), c)) ==
            L.Node(red, size, key', a, L.Node(true, b.Size() + c.Size() + 1, key, b, c))
  {
  }

  method RotateRight(node: Node) returns (res: Node)
    requires node.Valid() && node.lc != null
    modifies node.repr
    ensures res.Valid() && res.repr <= old(node.repr)
    ensures res.Value() == L.RotateRight(old(node.Value()))
  {
    hide Node.Valid, Node.Value, L.RotateRight, L.Tree.Size;
    Open(node);
    res := node.lc;
    Open(res);
    var l, m, r := res.lc, res.rc, node.rc;
    var a := SizeOf(m);
    var b := SizeOf(r);
    var red, size := node.red, node.size;
    RotatedRight(red, size, node.key, res.red, res.size, res.key, ValueOf(l), ValueOf(m), ValueOf(r));
    SetChildren(node, m, r, true, a + b + 1);
    SetChildren(res, l, node, red, size);
  }

  /** node->color = color */
  method Paint(node: Node, red: bool)
    requires node.Valid()
    modifies node
    ensures node.Valid() && node.repr <= old(node.repr)
    ensures node.Value() == L.Recolor(old(node.Value()), red)
  {
    hide Node.Valid, Node.Value;
    Open(node);
    SetChildren(node, node.lc, node.rc, red, node.size);
  }

  lemma Flipped(t: L.Tree)
    requires t.Node? && t.lc.Node? && t.rc.Node?
    ensures L.ColorFlip(t) == L.Node(!t.red, t.size, t.key, L.Recolor(t.lc, !t.lc.red), L.Recolor(t.rc, !t.rc.red))
  {
  }

  method ColorFlip(node: Node)
    requires node.Valid() && node.lc != null && node.rc != null
    modifies node.repr
    ensures node.Valid() && node.repr <= old(node.repr)
    ensures node.Value() == L.ColorFlip(old(node.Value()))
  {
    hide Node.Valid, Node.Value, L.ColorFlip, L.Recolor;
    Open(node);
    Flipped(node.Value());
    var l, r := node.lc, node.rc;
    Open(l);
    Open(r);
    Paint(l, !l.red);
    Paint(r, !r.red);
    SetChildren(node, l, r, !node.red, node.size);
  }

  /** root->lc->lc is red; root->lc must not be null */
  method LeftLeftIsRed(node: Node) returns (r: bool)
    requires node.Valid() && node.lc != null
    ensures r == node.Value().lc.lc.IsRed()
  {
    Open(node.lc);
    r := IsRed(node.lc.lc);
  }

  method LeanLeft(node: Node) returns (res: Node)
    requires node.Valid()
    modifies node.repr
    ensures res.Valid() && res.repr <= old(node.repr)
    ensures res.Value() == L.LeanLeft(old(node.Value()))
  {
    hide Node.Valid, Node.Value, L.RotateLeft;
    Open(node);
    res := node;
    var right := IsRed(node.rc);
    var left := IsRed(node.lc);
    if right && !left {
      res := RotateLeft(node);
    }
  }

  method Unstack(node: Node) returns (res: Node)
    requires node.Valid()
    modifies node.repr
    ensures res.Valid() && res.repr <= old(node.repr)
    ensures res.Value() == L.Unstack(old(node.Value()))
  {
    hide Node.Valid, Node.Value, L.RotateRight;
    Open(node);
    res := node;
    var left := IsRed(node.lc);
    if left {
      var second := LeftLeftIsRed(node);
      if second {
        res := RotateRight(node);
      }
    }
  }

  method BreakFour(node: Node)
    requires node.Valid()
    modifies node.repr
    ensures node.Valid() && node.repr <= old(node.repr)
    ensures node.Value() == L.BreakFour(old(node.Value()))
  {
    hide Node.Valid, Node.Value, L.ColorFlip;
    Open(node);
    var left := IsRed(node.lc);
    var right := IsRed(node.rc);
    if left && right {
      ColorFlip(node);
    }
  }

  method Resize(node: Node)
    requires node.Valid()
    modifies node
    ensures node.Valid() && node.repr <= old(node.repr)
    ensures node.Value() == L.Resize(old(node.Value()))
  {
    hide Node.Valid, Node.Value;
    Open(node);
    var a := SizeOf(node.lc);
    var b := SizeOf(node.rc);
    SetChildren(node, node.lc, node.rc, node.red, a + b + 1);
  }

  method FixUp(node: Node) returns (res: Node)
    requires node.Valid()
    modifies node.repr
    ensures res.Valid() && res.repr <= old(node.repr)
    ensures res.Value() == L.FixUp(old(node.Value()))
  {
    hide Node.Valid, Node.Value, L.LeanLeft, L.Unstack, L.BreakFour, L.Resize;
    InItself(node);
    res := LeanLeft(node);
    InItself(res);
    res := Unstack(res);
    InItself(res);
    BreakFour(res);
    InItself(res);
    Resize(res);
  }

  lemma InItself(node: Node)
    requires node.Valid()
    ensures node in node.repr
  {
  }

  lemma MovedLeft(t: L.Tree)
    requires t.Node? && t.lc.Node? && t.rc.Node?
    ensures var a := L.ColorFlip(t);
      && a.Node? && a.lc.Node? && a.rc.Node?
      && (!a.rc.lc.IsRed() ==> L.MoveRedLeft(t) == a)
      && (a.rc.lc.IsRed() ==>
            var b := L.Node(a.red, a.size, a.key, a.lc, L.RotateRight(a.rc));
            L.RotateRight(a.rc).Node? && L.MoveRedLeft(t) == L.ColorFlip(L.RotateLeft(b)) && HasTwo(L.RotateLeft(b)))
  {
  }

  predicate HasTwo(t: L.Tree) {
    t.Node? && t.lc.Node? && t.rc.Node?
  }

  /** root->rc->lc is red; root->rc must not be null */
  method RightLeftIsRed(node: Node) returns (r: bool)
    requires node.Valid() && node.rc != null
    ensures r == node.Value().rc.lc.IsRed()
  {
    Open(node.rc);
    r := IsRed(node.rc.lc);
  }

  method MoveRedLeft(node: Node) returns (res: Node)
    requires node.Valid() && node.lc != null && node.rc != null
    modifies node.repr
    ensures res.Valid() && res.repr <= old(node.repr)
    ensures res.Value() == L.MoveRedLeft(old(node.Value()))
  {
    hide Node.Valid, Node.Value, L.ColorFlip, L.RotateLeft, L.RotateRight, L.MoveRedLeft, L.Tree.IsRed;
    Open(node);
    MovedLeft(node.Value());
    ColorFlip(node);
    Open(node);
    res := node;
    var right := RightLeftIsRed(node);
    if right {
      Open(node.rc);
      IsRedOf(node.rc.lc);
      var rc := RotateRight(node.rc);
      SetChildren(node, node.lc, rc, node.red, node.size);
      res := RotateLeft(node);
      Open(res);
      ColorFlip(res);
    }
  }

  lemma MovedRight(t: L.Tree)
    requires t.Node? && t.lc.Node? && t.rc.Node?
    ensures var a := L.ColorFlip(t);
      && a.Node? && a.lc.Node? && a.rc.Node?
      && (!a.lc.lc.IsRed() ==> L.MoveRedRight(t) == a)
      && (a.lc.lc.IsRed() ==> L.MoveRedRight(t) == L.ColorFlip(L.RotateRight(a)) && HasTwo(L.RotateRight(a)))
  {
  }

  method MoveRedRight(node: Node) returns (res: Node)
    requires node.Valid() && node.lc != null && node.rc != null
    modifies node.repr
    ensures res.Valid() && res.repr <= old(node.repr)
    ensures res.Value() == L.MoveRedRight(old(node.Value()))
  {
    hide Node.Valid, Node.Value, L.ColorFlip, L.RotateLeft, L.RotateRight, L.MoveRedRight, L.Tree.IsRed;
    Open(node);
    MovedRight(node.Value());
    ColorFlip(node);
    Open(node);
    res := node;
    var left := LeftLeftIsRed(node);
    if left {
      res := RotateRight(node);
      Open(res);
      ColorFlip(res);
    }
  }

  lemma IsRedOf(n: Node?)
    requires IsTree(n)
    ensures ValueOf(n).IsRed() ==> n != null
  {
  }

  // ---------- Insertion ----------

  method InsertBelow(root: Node?, key: int) returns (res: Node)
    requires IsTree(root)
    modifies Footprint(root)
    ensures res.Valid() && fresh(res.repr - old(Footprint(root)))
    ensures res.Value() == L.Insert(old(ValueOf(root)), key)
    decreases ValueOf(root)
  {
    hide Node.Valid, Node.Value, L.FixUp;
    if root == null {
      res := new Node(key, true, 1);
      return;
    }
    Open(root);
    if root.key == key {
    } else if key < root.key {
      var l := InsertBelow(root.lc, key);
      SetChildren(root, l, root.rc, root.red, root.size);
    } else {
      var r := InsertBelow(root.rc, key);
      SetChildren(root, root.lc, r, root.red, root.size);
    }
    res := FixUp(root);
  }

  // ---------- Deletion ----------

  /** for (; x->lc != nullptr; x = x->lc) */
  method GetMin(root: Node) returns (key: int)
    requires root.Valid()
    ensures key == L.Min(root.Value())
  {
    var x: Node := root;
    Open(x);
    while x.lc != null
      invariant x.Valid() && L.Min(x.Value()) == L.Min(root.Value())
      decreases x.Value()
    {
      Open(x);
      x := x.lc;
    }
    key := x.key;
  }

  /** What the guards before a step to the left look at. */
  lemma CanGoLeft(t: L.Tree)
    requires L.Leans(t) && L.HasRed(t) && t.lc.Node?
    ensures !t.lc.IsRed() && !t.lc.lc.IsRed() ==> t.rc.Node? && L.ReadyLeft(t) == L.MoveRedLeft(t)
    ensures t.lc.IsRed() || t.lc.lc.IsRed() ==> L.ReadyLeft(t) == t
  {
    L.HeightWithinBlackHeight(t.lc);
  }

  method ReadyLeft(node: Node) returns (res: Node)
    requires node.Valid() && L.Leans(node.Value()) && L.HasRed(node.Value()) && node.lc != null
    modifies node.repr
    ensures res.Valid() && res.repr <= old(node.repr)
    ensures res.Value() == L.ReadyLeft(old(node.Value()))
  {
    hide Node.Valid, Node.Value, L.MoveRedLeft, L.ReadyLeft, L.Leans, L.HasRed;
    Open(node);
    CanGoLeft(node.Value());
    res := node;
    var left := IsRed(node.lc);
    var second := LeftLeftIsRed(node);
    if !left && !second {
      res := MoveRedLeft(node);
    }
  }

  lemma DeleteMinIs(t: L.Tree)
    requires L.Leans(t) && L.HasRed(t)
    ensures t.lc.Nil? ==> L.DeleteMin(t) == L.Nil
    ensures t.lc.Node? ==>
      var u := L.ReadyLeft(t);
      && u.Node? && u.lc.Node? && L.Leans(u.lc) && L.HasRed(u.lc) && L.Nodes(u.lc) < L.Nodes(t)
      && L.DeleteMin(t) == L.FixUp(L.Node(u.red, u.size, u.key, L.DeleteMin(u.lc), u.rc))
  {
    if t.lc.Node? { L.ReadyLeftShape(t); }
  }

  method DeleteMin(root: Node) returns (res: Node?)
    requires root.Valid() && L.Leans(root.Value()) && L.HasRed(root.Value())
    modifies root.repr
    ensures IsTree(res) && Footprint(res) <= old(root.repr)
    ensures ValueOf(res) == L.DeleteMin(old(root.Value()))
    decreases L.Nodes(root.Value())
  {
    hide Node.Valid, Node.Value, L.DeleteMin, L.ReadyLeft, L.FixUp, L.Leans, L.HasRed, L.Nodes;
    Open(root);
    DeleteMinIs(root.Value());
    if root.lc == null {
      return null;
    }
    var u := ReadyLeft(root);
    Open(u);
    var l := DeleteMin(u.lc);
    SetChildren(u, l, u.rc, u.red, u.size);
    res := FixUp(u);
  }

  lemma DeleteLeftIs(t: L.Tree, key: int)
    requires L.Deletable(t, key) && L.Ordered(t) && key in L.Keys(t) && key < t.key
    ensures L.Leans(t) && L.HasRed(t) && t.lc.Node?
    ensures var u := L.ReadyLeft(t);
      && u.Node? && u.lc.Node? && L.Deletable(u.lc, key) && L.Ordered(u.lc) && key in L.Keys(u.lc)
      && L.Nodes(u.lc) < L.Nodes(t)
      && L.Delete(t, key) == L.FixUp(L.Node(u.red, u.size, u.key, L.Delete(u.lc, key), u.rc))
  {
    assert t.lc.Node?;
    L.ReadyLeftShape(t);
    L.ReadyLeftKeys(t);
  }

  lemma LeanRightIs(t: L.Tree, key: int)
    requires L.Deletable(t, key) && L.Ordered(t) && key in L.Keys(t) && key >= t.key
    ensures t.lc.IsRed() ==> L.LeanRight(t) == L.RotateRight(t)
    ensures !t.lc.IsRed() ==> L.LeanRight(t) == t
    ensures L.LeanRight(t).Node?
    ensures var u := L.LeanRight(t);
      && (key == u.key && u.rc.Nil? ==> L.Delete(t, key) == L.Nil)
      && (!(key == u.key && u.rc.Nil?) ==> GoesRight(t, u, key))
  {
    L.LeanRightShape(t, key);
  }

  /** After the first step the deletion goes on to the right. */
  ghost predicate GoesRight(t: L.Tree, u: L.Tree, key: int) {
    && u.Node? && u.rc.Node? && u == L.LeanRight(t) && L.Ordered(u) && L.Keys(u) == L.Keys(t)
    && L.BlackHeight(u) == L.BlackHeight(t) && key >= u.key && key in L.Keys(u) && key >= t.key && t.Node?
    && !u.lc.IsRed() && ((u.red && t.IsRed() && L.Leans(u)) || L.LeansOver(u))
  }

  lemma ReadyRightIs(t: L.Tree, u: L.Tree, key: int)
    requires GoesRight(t, u, key)
    ensures u.rc.Node?
    ensures !u.rc.IsRed() && !u.rc.lc.IsRed() ==> u.lc.Node? && L.ReadyRight(u) == L.MoveRedRight(u)
    ensures u.rc.IsRed() || u.rc.lc.IsRed() ==> L.ReadyRight(u) == u
  {
    if !u.rc.IsRed() { assert L.BlackHeight(u.lc) == L.BlackHeight(u.rc) > 0; }
  }

  lemma DeleteRightIs(t: L.Tree, u: L.Tree, key: int)
    requires GoesRight(t, u, key)
    ensures var v := L.ReadyRight(u);
      && v.Node? && v.rc.Node? && L.Nodes(v.rc) < L.Nodes(t)
      && (key == v.key ==> L.Leans(v.rc) && L.HasRed(v.rc))
      && (key == v.key ==>
            L.Delete(t, key) == L.FixUp(L.Node(v.red, v.size, L.Min(v.rc), v.lc, L.DeleteMin(v.rc))))
      && (key != v.key ==> L.Deletable(v.rc, key) && L.Ordered(v.rc) && key in L.Keys(v.rc))
      && (key != v.key ==>
            L.Delete(t, key) == L.FixUp(L.Node(v.red, v.size, v.key, v.lc, L.Delete(v.rc, key))))
  {
    L.ReadyRightShape(t, u, key);
    L.ReadyRightKeys(u, key);
  }

  method LeanRight(node: Node) returns (res: Node)
    requires node.Valid()
    modifies node.repr
    ensures res.Valid() && res.repr <= old(node.repr)
    ensures res.Value() == L.LeanRight(old(node.Value()))
  {
    hide Node.Valid, Node.Value, L.RotateRight;
    Open(node);
    res := node;
    var left := IsRed(node.lc);
    if left {
      res := RotateRight(node);
    }
  }

  method ReadyRight(node: Node, ghost t: L.Tree, ghost key: int) returns (res: Node)
    requires node.Valid() && GoesRight(t, node.Value(), key)
    modifies node.repr
    ensures res.Valid() && res.repr <= old(node.repr)
    ensures res.Value() == L.ReadyRight(old(node.Value()))
  {
    hide Node.Valid, Node.Value, L.MoveRedRight, L.ReadyRight, GoesRight;
    Open(node);
    ReadyRightIs(t, node.Value(), key);
    res := node;
    var right := IsRed(node.rc);
    var second := RightLeftIsRed(node);
    if !right && !second {
      res := MoveRedRight(node);
    }
  }

  /** root->key = get_min(root->rc); root->rc = delete_min(root->rc) */
  method RemoveOwn(v: Node) returns (res: Node)
    requires v.Valid() && v.rc != null && L.Leans(v.Value().rc) && L.HasRed(v.Value().rc)
    modifies v.repr
    ensures res.Valid() && res.repr <= old(v.repr)
    ensures res.Value() == old(var w := v.Value();
      L.FixUp(L.Node(w.red, w.size, L.Min(w.rc), w.lc, L.DeleteMin(w.rc))))
  {
    hide Node.Valid, Node.Value, L.DeleteMin, L.FixUp, L.Leans, L.HasRed, L.Nodes, L.Min;
    Open(v);
    var least := GetMin(v.rc);
    var r := DeleteMin(v.rc);
    SetChildren(v, v.lc, r, v.red, v.size);
    Rekey(v, least);
    res := FixUp(v);
  }

  method Rekey(n: Node, key: int)
    requires n.Valid()
    modifies n
    ensures n.Valid() && n.repr == old(n.repr)
    ensures n.Value() == old(var w := n.Value(); L.Node(w.red, w.size, key, w.lc, w.rc))
  {
    Open(n);
    n.key := key;
  }

  method DeleteGoingLeft(root: Node, key: int) returns (res: Node?)
    requires root.Valid() && L.Deletable(root.Value(), key) && L.Ordered(root.Value()) && key in L.Keys(root.Value())
    requires key < root.key
    modifies root.repr
    ensures IsTree(res) && Footprint(res) <= old(root.repr)
    ensures ValueOf(res) == L.Delete(old(root.Value()), key)
    decreases L.Nodes(root.Value()), 0
  {
    hide Node.Valid, Node.Value, L.Delete, L.ReadyLeft, L.FixUp, L.Leans, L.HasRed, L.Nodes, L.Deletable, L.Ordered, L.Keys;
    Open(root);
    DeleteLeftIs(root.Value(), key);
    var u := ReadyLeft(root);
    Open(u);
    var l := DeleteBelow(u.lc, key);
    SetChildren(u, l, u.rc, u.red, u.size);
    res := FixUp(u);
  }

  method DeleteGoingRight(u: Node, key: int, ghost t: L.Tree) returns (res: Node)
    requires u.Valid() && GoesRight(t, u.Value(), key)
    modifies u.repr
    ensures res.Valid() && res.repr <= old(u.repr)
    ensures res.Value() == L.Delete(t, key)
    decreases L.Nodes(t), 0
  {
    hide Node.Valid, Node.Value, L.Delete, L.DeleteMin, L.ReadyRight, L.LeanRight, L.FixUp, L.Leans, L.HasRed;
    hide L.Nodes, L.Deletable, L.Ordered, L.Keys, L.Min, GoesRight;
    DeleteRightIs(t, u.Value(), key);
    var v := ReadyRight(u, t, key);
    Open(v);
    if key == v.key {
      res := RemoveOwn(v);
    } else {
      var r := DeleteBelow(v.rc, key);
      SetChildren(v, v.lc, r, v.red, v.size);
      res := FixUp(v);
    }
  }

  method DeleteBelow(root: Node, key: int) returns (res: Node?)
    requires root.Valid() && L.Deletable(root.Value(), key) && L.Ordered(root.Value()) && key in L.Keys(root.Value())
    modifies root.repr
    ensures IsTree(res) && Footprint(res) <= old(root.repr)
    ensures ValueOf(res) == L.Delete(old(root.Value()), key)
    decreases L.Nodes(root.Value()), 1
  {
    hide Node.Valid, Node.Value, L.Delete, L.LeanRight, L.Nodes, L.Deletable, L.Ordered, L.Keys, GoesRight;
    ghost var t := root.Value();
    Open(root);
    if key < root.key {
      res := DeleteGoingLeft(root, key);
    } else {
      LeanRightIs(t, key);
      var u := LeanRight(root);
      Open(u);
      if key == u.key && u.rc == null {
        return null;
      }
      res := DeleteGoingRight(u, key, t);
    }
  }

  // ---------- The set ----------

  /** Insert, then paint the root black. */
  method InsertRoot(root: Node?, key: int) returns (top: Node)
    requires IsTree(root)
    modifies Footprint(root)
    ensures IsTree(top) && fresh(Footprint(top) - old(Footprint(root)))
    ensures ValueOf(top) == L.SetInsert(old(ValueOf(root)), key)
  {
    hide L.Insert, L.Recolor, Node.Valid, Node.Value;
    top := InsertBelow(root, key);
    InItself(top);
    Paint(top, false);
  }

  /** Paint the root red if neither child is. */
  method ReadyRoot(root: Node)
    requires root.Valid()
    modifies root
    ensures root.Valid() && root.repr <= old(root.repr) && root.Value() == L.Readied(old(root.Value()))
  {
    hide L.Recolor, Node.Valid, Node.Value;
    Open(root);
    var left := IsRed(root.lc);
    var right := IsRed(root.rc);
    if !left && !right {
      Paint(root, true);
    }
  }

  /** Ready the root, delete, and paint the new root black. */
  method EraseRoot(root: Node, key: int) returns (top: Node?)
    requires root.Valid() && L.IsSet(root.Value()) && L.Count(root.Value(), key) > 0
    modifies root.repr
    ensures IsTree(top) && Footprint(top) <= old(root.repr)
    ensures ValueOf(top) == L.SetErase(old(root.Value()), key)
  {
    hide L.IsSet, L.Delete, L.Keys, L.Recolor, L.Deletable, L.Ordered, L.SetErase, L.Count, L.Readied, Node.Valid, Node.Value;
    EraseIs(root.Value(), key);
    InItself(root);
    ReadyRoot(root);
    top := DeleteBelow(root, key);
    if top != null {
      InItself(top);
      Paint(top, false);
    }
  }

  lemma EraseIs(t: L.Tree, key: int)
    requires L.IsSet(t) && L.Count(t, key) > 0
    ensures t.Node? && L.SetErase(t, key) == L.Recolor(L.Delete(L.Readied(t), key), false)
    ensures L.Deletable(L.Readied(t), key) && L.Ordered(L.Readied(t)) && key in L.Keys(L.Readied(t))
    ensures L.Recolor(L.Nil, false) == L.Nil
  {
    L.CountIsMembership(t, key);
    L.RecolorKeeps(t, true);
  }

  class Set {
    var root: Node?

    ghost predicate Valid()
      reads this, root, Footprint(root)
    {
      IsTree(root) && L.IsSet(ValueOf(root))
    }

    ghost function Contents(): set<int>
      requires IsTree(root)
      reads this, root, Footprint(root)
    {
      L.Keys(ValueOf(root))
    }

    constructor ()
      ensures Valid() && Contents() == {} && root == null
    {
      root := null;
    }

    method Find(key: int) returns (found: bool)
      requires Valid()
      ensures found <==> key in Contents()
    {
      L.CountIsMembership(ValueOf(root), key);
      var now := root;
      while now != null
        invariant IsTree(now) && L.Count(ValueOf(now), key) == L.Count(ValueOf(root), key)
        decreases ValueOf(now)
      {
        Open(now);
        if now.key == key {
          return true;
        }
        if now.key < key {
          now := now.rc;
        } else {
          now := now.lc;
        }
      }
      return false;
    }

    method Count(key: int) returns (n: nat)
      requires Valid()
      ensures n == L.Count(ValueOf(root), key) == if key in Contents() then 1 else 0
    {
      var found := Find(key);
      L.CountIsMembership(ValueOf(root), key);
      n := if found then 1 else 0;
    }

    method Size() returns (n: nat)
      requires Valid()
      ensures n == |Contents()|
    {
      L.NodesAreKeys(ValueOf(root));
      n := SizeOf(root);
    }

    /** Add a key; afterwards the root is black. */
    method Insert(key: int)
      requires Valid()
      modifies this, Footprint(root)
      ensures Valid() && fresh(Footprint(root) - old(Footprint(root)))
      ensures Contents() == old(Contents()) + {key} && ValueOf(root) == L.SetInsert(old(ValueOf(root)), key)
    {
      hide L.IsSet, L.SetInsert, L.Keys, Node.Valid, Node.Value;
      L.InsertKeepsSet(ValueOf(root), key);
      var top := InsertRoot(root, key);
      root := top;
    }

    /** Remove a key if it is there, and say whether it was. */
    method Erase(key: int) returns (n: nat)
      requires Valid()
      modifies this, Footprint(root)
      ensures Valid() && Footprint(root) <= old(Footprint(root))
      ensures Contents() == old(Contents()) - {key} && n == if key in old(Contents()) then 1 else 0
      ensures ValueOf(root) == L.SetErase(old(ValueOf(root)), key)
    {
      hide L.IsSet, L.SetErase, L.Keys, L.Count, Node.Valid, Node.Value;
      L.EraseKeepsSet(ValueOf(root), key);
      n := Count(key);
      if n > 0 {
        NotEmpty(root, key);
        var top := EraseRoot(root, key);
        root := top;
      }
    }
  }

  lemma NotEmpty(root: Node?, key: int)
    requires IsTree(root) && L.Count(ValueOf(root), key) > 0
    ensures root != null
  {
  }
}

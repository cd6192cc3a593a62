/**
  The left-leaning red-black tree as a value: what each pointer operation does to the tree, and
  that insertion and deletion keep its shape.
 */
module Llrb {
  import opened Powers

  datatype Tree = Nil | Node(red: bool, size: nat, key: int, lc: Tree, rc: Tree) {
    predicate IsRed() { Node? && red }

    function Size(): nat { if Nil? then 0 else size }
  }

  // ---------- The pointer operations ----------

  function Nodes(t: Tree): nat {
    if t.Nil? then 0 else 1 + Nodes(t.lc) + Nodes(t.rc)
  }

  /** Where the source would follow a null pointer, these functions leave the tree alone. */
  function RotateLeft(t: Tree): (u: Tree)
    ensures Nodes(u) == Nodes(t)
  {
    if t.Node? && t.rc.Node? then
      var r := t.rc;
      Node(t.red, t.size, r.key, Node(true, t.lc.Size() + r.lc.Size() + 1, t.key, t.lc, r.lc), r.rc)
    else t
  }

  function RotateRight(t: Tree): (u: Tree)
    ensures Nodes(u) == Nodes(t)
  {
    if t.Node? && t.lc.Node? then
      var l := t.lc;
      Node(t.red, t.size, l.key, l.lc, Node(true, l.rc.Size() + t.rc.Size() + 1, t.key, l.rc, t.rc))
    else t
  }

  function Recolor(t: Tree, red: bool): Tree {
    if t.Node? then t.(red := red) else t
  }

  function ColorFlip(t: Tree): (u: Tree)
    ensures Nodes(u) == Nodes(t)
  {
    if t.Node? && t.lc.Node? && t.rc.Node? then
      Node(!t.red, t.size, t.key, t.lc.(red := !t.lc.red), t.rc.(red := !t.rc.red))
    else t
  }

  /** A right-leaning red link is turned left. */
  function LeanLeft(t: Tree): Tree {
    if t.Node? && t.rc.IsRed() && !t.lc.IsRed() then RotateLeft(t) else t
  }

  /** Two red links in a row to the left are balanced. */
  function Unstack(t: Tree): Tree {
    if t.Node? && t.lc.IsRed() && t.lc.lc.IsRed() then RotateRight(t) else t
  }

  /** Two red children pass their colour up. */
  function BreakFour(t: Tree): Tree {
    if t.Node? && t.lc.IsRed() && t.rc.IsRed() then ColorFlip(t) else t
  }

  function Resize(t: Tree): Tree {
    if t.Node? then t.(size := t.lc.Size() + t.rc.Size() + 1) else t
  }

  function FixUp(t: Tree): Tree {
    Resize(BreakFour(Unstack(LeanLeft(t))))
  }

  function MoveRedLeft(t: Tree): Tree {
    var a := ColorFlip(t);
    if a.Node? && a.rc.Node? && a.rc.lc.IsRed() then
      ColorFlip(RotateLeft(a.(rc := RotateRight(a.rc))))
    else a
  }

  function MoveRedRight(t: Tree): Tree {
    var a := ColorFlip(t);
    if a.Node? && a.lc.Node? && a.lc.lc.IsRed() then ColorFlip(RotateRight(a)) else a
  }

  function Insert(t: Tree, key: int): Tree {
    if t.Nil? then Node(true, 1, key, Nil, Nil)
    else if key == t.key then FixUp(t)
    else if key < t.key then FixUp(t.(lc := Insert(t.lc, key)))
    else FixUp(t.(rc := Insert(t.rc, key)))
  }

  function Min(t: Tree): int {
    if t.Nil? then 0 else if t.lc.Nil? then t.key else Min(t.lc)
  }

  /** The root after making sure that the deletion can go left through a red node. */
  function ReadyLeft(t: Tree): (u: Tree)
    ensures Nodes(u) == Nodes(t) && (t.Node? ==> u.Node?)
  {
    if t.Node? && !t.lc.IsRed() && !(t.lc.Node? && t.lc.lc.IsRed()) then MoveRedLeft(t) else t
  }

  function DeleteMin(t: Tree): Tree
    decreases Nodes(t)
  {
    if t.Nil? || t.lc.Nil? then Nil
    else
      var u := ReadyLeft(t);
      FixUp(u.(lc := DeleteMin(u.lc)))
  }

  /** The first step of a deletion that goes right: a red left child is rotated up. */
  function LeanRight(t: Tree): (u: Tree)
    ensures Nodes(u) == Nodes(t) && (t.Node? ==> u.Node?)
  {
    if t.Node? && t.lc.IsRed() then RotateRight(t) else t
  }

  function ReadyRight(t: Tree): (u: Tree)
    ensures Nodes(u) == Nodes(t) && (t.Node? ==> u.Node?)
  {
    if t.Node? && !t.rc.IsRed() && !(t.rc.Node? && t.rc.lc.IsRed()) then MoveRedRight(t) else t
  }

  function Delete(t: Tree, key: int): Tree
    decreases Nodes(t)
  {
    if t.Nil? then t
    else if key < t.key then
      var u := ReadyLeft(t);
      FixUp(u.(lc := Delete(u.lc, key)))
    else
      var u := LeanRight(t);
      if key == u.key && u.rc.Nil? then Nil
      else
        var v := ReadyRight(u);
        if key == v.key then FixUp(v.(key := Min(v.rc), rc := DeleteMin(v.rc)))
        else FixUp(v.(rc := Delete(v.rc, key)))
  }

  // ---------- Shape ----------

  function BlackHeight(t: Tree): nat {
    if t.Nil? then 0 else BlackHeight(t.lc) + if t.red then 0 else 1
  }

  /** Equal black heights, no red link to the right, no two red links in a row. */
  predicate Leans(t: Tree) {
    t.Node? ==>
      && Leans(t.lc) && Leans(t.rc) && BlackHeight(t.lc) == BlackHeight(t.rc)
      && !t.rc.IsRed() && (t.red ==> !t.lc.IsRed())
  }

  /** As Leans, but the root may have a red left child although it is red itself. */
  predicate LeansButRoot(t: Tree) {
    t.Node? ==>
      && Leans(t.lc) && Leans(t.rc) && BlackHeight(t.lc) == BlackHeight(t.rc)
      && !t.rc.IsRed()
  }

  lemma FixUpAfterInsertLeft(t: Tree, l: Tree)
    requires t.Node? && Leans(t) && LeansButRoot(l) && BlackHeight(l) == BlackHeight(t.lc)
    requires !t.lc.IsRed() ==> Leans(l)
    ensures var r := FixUp(t.(lc := l));
      r.Node? && LeansButRoot(r) && BlackHeight(r) == BlackHeight(t) && (!t.red ==> Leans(r))
  {
    assert BlackHeight(t.lc) == BlackHeight(t.rc);
    if l.IsRed() && l.lc.IsRed() {
      var r := FixUp(t.(lc := l));
      assert r.lc.lc == l.lc.lc && r.lc.rc == l.lc.rc && r.rc.lc == l.rc && r.rc.rc == t.rc;
      assert Leans(l.lc);
      assert Leans(r.lc) && Leans(r.rc);
    }
  }

  lemma FixUpAfterInsertRight(t: Tree, x: Tree)
    requires t.Node? && Leans(t) && Leans(x) && BlackHeight(x) == BlackHeight(t.rc)
    ensures var r := FixUp(t.(rc := x));
      r.Node? && LeansButRoot(r) && BlackHeight(r) == BlackHeight(t) && (!t.red ==> Leans(r))
  {
    assert BlackHeight(t.lc) == BlackHeight(t.rc);
  }

  lemma {:induction false} InsertLeans(t: Tree, key: int)
    requires Leans(t)
    ensures var r := Insert(t, key); r.Node? && LeansButRoot(r) && BlackHeight(r) == BlackHeight(t)
    ensures !t.IsRed() ==> Leans(Insert(t, key))
  {
    if t.Node? {
      if key < t.key {
        InsertLeans(t.lc, key);
        FixUpAfterInsertLeft(t, Insert(t.lc, key));
      } else if key > t.key {
        InsertLeans(t.rc, key);
        FixUpAfterInsertRight(t, Insert(t.rc, key));
      } else {
        FixUpAfterInsertRight(t, t.rc);
        assert t.(rc := t.rc) == t;
      }
    }
  }

  /** A red node at hand: the root or its left child. */
  predicate HasRed(t: Tree) {
    t.IsRed() || (t.Node? && t.lc.IsRed())
  }

  lemma ReadyLeftShape(t: Tree)
    requires Leans(t) && HasRed(t) && t.lc.Node?
    ensures var u := ReadyLeft(t);
      && u.Node? && Leans(u.lc) && HasRed(u.lc) && Leans(u.rc)
      && BlackHeight(u.lc) == BlackHeight(u.rc) && BlackHeight(u) == BlackHeight(t)
      && (u.rc.IsRed() ==> t.red && !u.red && u.lc.IsRed())
      && (u.red ==> t.red && !u.lc.IsRed() && !u.rc.IsRed())
  {
  }

  /** Putting a repaired left child back. */
  lemma FixUpAfterLeft(u: Tree, l: Tree)
    requires u.Node? && Leans(l) && Leans(u.rc) && BlackHeight(l) == BlackHeight(u.lc) == BlackHeight(u.rc)
    requires u.rc.IsRed() ==> !u.red
    requires u.red ==> !l.IsRed() && !u.rc.IsRed()
    ensures var r := FixUp(u.(lc := l));
      && Leans(r) && BlackHeight(r) == BlackHeight(u)
      && (r.IsRed() ==> u.red || u.rc.IsRed())
  {
  }

  lemma {:induction false} DeleteMinShape(t: Tree)
    requires Leans(t) && HasRed(t)
    ensures var r := DeleteMin(t); Leans(r) && BlackHeight(r) == BlackHeight(t) && (r.IsRed() ==> t.IsRed())
    ensures t.lc.Nil? ==> t.rc.Nil?
    decreases Nodes(t)
  {
    if t.lc.Node? {
      var u := ReadyLeft(t);
      ReadyLeftShape(t);
      DeleteMinShape(u.lc);
      FixUpAfterLeft(u, DeleteMin(u.lc));
    }
  }

  /** A black node whose red child leans right, as a deletion that goes right may leave it. */
  predicate LeansOver(t: Tree) {
    && t.Node? && !t.red && Leans(t.lc) && Leans(t.rc) && BlackHeight(t.lc) == BlackHeight(t.rc)
    && !t.lc.IsRed() && t.rc.IsRed()
  }

  /** What a deletion may be called on. */
  predicate Deletable(t: Tree, key: int) {
    t.Node? && ((Leans(t) && HasRed(t)) || (key >= t.key && LeansOver(t)))
  }

  // ---------- Keys ----------

  function Keys(t: Tree): set<int> {
    if t.Nil? then {} else Keys(t.lc) + {t.key} + Keys(t.rc)
  }

  predicate Ordered(t: Tree) {
    t.Node? ==>
      && Ordered(t.lc) && Ordered(t.rc)
      && (forall x | x in Keys(t.lc) :: x < t.key) && forall x | x in Keys(t.rc) :: t.key < x
  }

  lemma RotateLeftKeys(t: Tree)
    requires Ordered(t)
    ensures Keys(RotateLeft(t)) == Keys(t) && Ordered(RotateLeft(t))
  {
    if t.Node? && t.rc.Node? {
      assert t.rc.key in Keys(t.rc);
      var n := RotateLeft(t).lc;
      assert Keys(n) == Keys(t.lc) + {t.key} + Keys(t.rc.lc);
      assert Ordered(n);
    }
  }

  lemma RotateRightKeys(t: Tree)
    requires Ordered(t)
    ensures Keys(RotateRight(t)) == Keys(t) && Ordered(RotateRight(t))
  {
    if t.Node? && t.lc.Node? {
      assert t.lc.key in Keys(t.lc);
      var n := RotateRight(t).rc;
      assert Keys(n) == Keys(t.lc.rc) + {t.key} + Keys(t.rc);
      assert Ordered(n);
    }
  }

  lemma ColorFlipKeys(t: Tree)
    requires Ordered(t)
    ensures Keys(ColorFlip(t)) == Keys(t) && Ordered(ColorFlip(t))
  {
    if t.Node? && t.lc.Node? && t.rc.Node? {
      var l, r := t.lc.(red := !t.lc.red), t.rc.(red := !t.rc.red);
      assert Keys(l) == Keys(t.lc) && Keys(r) == Keys(t.rc) && Ordered(l) && Ordered(r);
    }
  }

  lemma ResizeKeys(t: Tree)
    requires Ordered(t)
    ensures Keys(Resize(t)) == Keys(t) && Ordered(Resize(t))
  {
  }

  lemma FixUpKeys(t: Tree)
    requires Ordered(t)
    ensures Keys(FixUp(t)) == Keys(t) && Ordered(FixUp(t))
  {
    hide Keys, Ordered, RotateLeft, RotateRight, ColorFlip, Resize;
    RotateLeftKeys(t);
    RotateRightKeys(LeanLeft(t));
    ColorFlipKeys(Unstack(LeanLeft(t)));
    ResizeKeys(BreakFour(Unstack(LeanLeft(t))));
  }

  lemma NewLeft(u: Tree, l: Tree)
    requires u.Node? && Ordered(u) && Ordered(l) && forall x | x in Keys(l) :: x < u.key
    ensures var r := FixUp(u.(lc := l)); Ordered(r) && Keys(r) == Keys(l) + {u.key} + Keys(u.rc)
  {
    FixUpKeys(u.(lc := l));
  }

  lemma NewRight(u: Tree, key: int, r: Tree)
    requires u.Node? && Ordered(u.lc) && Ordered(r)
    requires (forall x | x in Keys(u.lc) :: x < key) && forall x | x in Keys(r) :: key < x
    ensures var t := FixUp(u.(key := key, rc := r)); Ordered(t) && Keys(t) == Keys(u.lc) + {key} + Keys(r)
  {
    FixUpKeys(u.(key := key, rc := r));
  }

  lemma {:induction false} InsertKeys(t: Tree, key: int)
    requires Ordered(t)
    ensures Ordered(Insert(t, key)) && Keys(Insert(t, key)) == Keys(t) + {key}
  {
    if t.Node? {
      hide FixUp;
      if key == t.key {
        FixUpKeys(t);
      } else if key < t.key {
        InsertKeys(t.lc, key);
        NewLeft(t, Insert(t.lc, key));
      } else {
        InsertKeys(t.rc, key);
        NewRight(t, t.key, Insert(t.rc, key));
        assert t.(key := t.key, rc := Insert(t.rc, key)) == t.(rc := Insert(t.rc, key));
      }
    }
  }

  lemma ReadyLeftKeys(t: Tree)
    requires Ordered(t) && t.Node?
    ensures var u := ReadyLeft(t); Keys(u) == Keys(t) && Ordered(u)
    ensures ReadyLeft(t).key >= t.key && (t.lc.Node? ==> ReadyLeft(t).lc.Node?)
    ensures forall x | x in Keys(t) && x < t.key :: x in Keys(ReadyLeft(t).lc)
  {
    var u := ReadyLeft(t);
    var a := ColorFlip(t);
    ColorFlipKeys(t);
    if u != t && a.rc.Node? && a.rc.lc.IsRed() {
      RotateRightKeys(a.rc);
      var b := a.(rc := RotateRight(a.rc));
      assert Keys(b) == Keys(a) && Ordered(b);
      RotateLeftKeys(b);
      ColorFlipKeys(RotateLeft(b));
      assert u == ColorFlip(RotateLeft(b));
      assert u.key in Keys(b.rc);
    }
    assert t.key in Keys(t) && u.key in Keys(u);
  }

  lemma {:induction false} MinIsLeast(t: Tree)
    requires Ordered(t) && t.Node?
    ensures Min(t) in Keys(t) && forall x | x in Keys(t) :: Min(t) <= x
  {
    if t.lc.Node? { MinIsLeast(t.lc); }
  }

  lemma {:induction false} DeleteMinKeys(t: Tree)
    requires Leans(t) && HasRed(t) && Ordered(t)
    ensures Ordered(DeleteMin(t)) && Keys(DeleteMin(t)) == Keys(t) - {Min(t)}
    decreases Nodes(t)
  {
    DeleteMinShape(t);
    if t.lc.Node? {
      var u := ReadyLeft(t);
      ReadyLeftShape(t);
      ReadyLeftKeys(t);
      DeleteMinKeys(u.lc);
      LeastRemoved(t, u, DeleteMin(u.lc));
    }
  }

  lemma LeastRemoved(t: Tree, u: Tree, l: Tree)
    requires t.Node? && u.Node? && u.lc.Node? && Ordered(t) && Ordered(u) && Keys(t) == Keys(u)
    requires Ordered(l) && Keys(l) == Keys(u.lc) - {Min(u.lc)}
    ensures Ordered(FixUp(u.(lc := l))) && Keys(FixUp(u.(lc := l))) == Keys(t) - {Min(t)}
  {
    Parts(u);
    hide Ordered, FixUp, Min;
    MinOfLeft(t, u);
    NewLeft(u, l);
  }

  /** Both roots have the same keys, so the left subtrees hold the same smallest one. */
  lemma MinOfLeft(t: Tree, u: Tree)
    requires t.Node? && u.Node? && u.lc.Node? && Ordered(t) && Ordered(u) && Keys(t) == Keys(u)
    ensures Min(t) == Min(u.lc) && Min(u.lc) < u.key && Min(u.lc) !in Keys(u.rc)
  {
    MinIsLeast(t);
    MinIsLeast(u);
    MinIsLeast(u.lc);
  }

  // ---------- Deletion ----------

  lemma RotatedOver(t: Tree)
    requires Leans(t) && t.Node? && t.lc.IsRed()
    ensures LeansOver(RotateRight(t)) && BlackHeight(RotateRight(t)) == BlackHeight(t)
  {
    var l := t.lc;
    assert Leans(l) && !t.red && !l.lc.IsRed() && !l.rc.IsRed();
    assert BlackHeight(l) == BlackHeight(l.lc) == BlackHeight(l.rc) == BlackHeight(t.rc);
    var r := RotateRight(t).rc;
    assert Leans(r) && BlackHeight(r) == BlackHeight(l.rc);
  }

  lemma LeanRightShape(t: Tree, key: int)
    requires Deletable(t, key) && Ordered(t) && key >= t.key
    ensures var u := LeanRight(t);
      && u.Node? && Ordered(u) && Keys(u) == Keys(t) && BlackHeight(u) == BlackHeight(t) && key >= u.key
      && !u.lc.IsRed() && ((u.red && t.red && Leans(u)) || LeansOver(u))
      && (u.rc.Nil? ==> u.lc.Nil? && u.red)
  {
    RotateRightKeys(t);
    if t.lc.IsRed() {
      RotatedOver(t);
      assert t.lc.key in Keys(t.lc);
    }
  }

  /** The node from which the deletion goes right or removes the root's own key. */
  predicate Poised(t: Tree, v: Tree, key: int) {
    && v.Node? && BlackHeight(v) == BlackHeight(t)
    && Leans(v.lc) && BlackHeight(v.lc) == BlackHeight(v.rc)
    && Deletable(v.rc, key) && (key == v.key ==> Leans(v.rc) && HasRed(v.rc))
    && (v.lc.IsRed() ==> t.IsRed() && !v.red) && (v.red ==> t.IsRed() && !v.rc.IsRed())
  }

  lemma ReadyRightKeys(u: Tree, key: int)
    requires u.Node? && Ordered(u) && key >= u.key
    ensures var v := ReadyRight(u); v.Node? && Ordered(v) && Keys(v) == Keys(u) && v.key <= u.key
    ensures ReadyRight(u).key != u.key ==> key != ReadyRight(u).key
  {
    ColorFlipKeys(u);
    var a := ColorFlip(u);
    RotateRightKeys(a);
    ColorFlipKeys(RotateRight(a));
    if a.lc.Node? { assert a.lc.key in Keys(a.lc); }
  }

  /** Neither right child nor its left child is red: the flipped root sends a red node right. */
  lemma MovedRight(t: Tree, u: Tree, key: int)
    requires u.Node? && u.rc.Node? && BlackHeight(u) == BlackHeight(t) && key >= u.key
    requires u.red && t.IsRed() && Leans(u) && !u.rc.IsRed() && !u.rc.lc.IsRed()
    requires u.lc.Node? ==> u.lc.key < u.key
    ensures Poised(t, MoveRedRight(u), key)
  {
    var l, r := u.lc, u.rc;
    assert l.Node? && !l.red && Leans(l) && Leans(r);
    var a := ColorFlip(u);
    assert a == Node(false, u.size, u.key, l.(red := true), r.(red := true));
    assert Leans(r.(red := true)) && BlackHeight(r.(red := true)) == BlackHeight(r.lc);
    if l.lc.IsRed() {
      var v := MoveRedRight(u);
      assert v.rc.lc == l.rc && v.rc.rc == r.(red := true) && v.lc == l.lc.(red := false);
      assert LeansOver(v.rc);
      assert Leans(l.lc) && v.lc.lc == l.lc.lc && v.lc.rc == l.lc.rc;
      assert Leans(v.lc);
    } else {
      assert Leans(l.(red := true));
    }
  }

  lemma ReadyRightShape(t: Tree, u: Tree, key: int)
    requires u.Node? && u.rc.Node? && Ordered(u) && BlackHeight(u) == BlackHeight(t) && key >= u.key
    requires !u.lc.IsRed() && ((u.red && t.IsRed() && Leans(u)) || LeansOver(u))
    ensures Poised(t, ReadyRight(u), key)
  {
    if !u.rc.IsRed() && !u.rc.lc.IsRed() {
      if u.lc.Node? { assert u.lc.key in Keys(u.lc); }
      hide Poised;
      MovedRight(t, u, key);
    }
  }

  /** Putting a repaired right child back. */
  lemma FixUpAfterRight(v: Tree, key: int, r: Tree)
    requires v.Node? && Leans(v.lc) && Leans(r) && BlackHeight(r) == BlackHeight(v.lc) == BlackHeight(v.rc)
    requires v.lc.IsRed() ==> !v.red
    requires v.red ==> !r.IsRed()
    ensures var t := FixUp(v.(key := key, rc := r));
      && Leans(t) && BlackHeight(t) == BlackHeight(v) && (t.IsRed() ==> v.red || v.lc.IsRed())
  {
  }

  predicate Removed(t: Tree, key: int, r: Tree) {
    && Leans(r) && BlackHeight(r) == BlackHeight(t) && (r.IsRed() ==> t.IsRed())
    && Ordered(r) && Keys(r) == Keys(t) - {key}
  }

  /** Deletion of a key that is there removes just that key and keeps the shape and the black height. */
  lemma {:induction false} DeleteCorrect(t: Tree, key: int)
    requires Deletable(t, key) && Ordered(t) && key in Keys(t)
    ensures Removed(t, key, Delete(t, key))
    decreases Nodes(t), 1
  {
    if key < t.key {
      DeleteLeft(t, key);
    } else {
      LeanRightShape(t, key);
      var u := LeanRight(t);
      if key != u.key || u.rc.Node? {
        DeleteRight(t, u, key);
      }
    }
  }

  lemma {:induction false} DeleteLeft(t: Tree, key: int)
    requires Deletable(t, key) && Ordered(t) && key in Keys(t) && key < t.key
    ensures Removed(t, key, Delete(t, key))
    decreases Nodes(t), 0
  {
    var u := ReadyLeft(t);
    assert t.lc.Node?;
    ReadyLeftShape(t);
    ReadyLeftKeys(t);
    DeleteCorrect(u.lc, key);
    hide ReadyLeft, FixUp;
    FixUpAfterLeft(u, Delete(u.lc, key));
    NewLeft(u, Delete(u.lc, key));
  }

  lemma {:induction false} DeleteRight(t: Tree, u: Tree, key: int)
    requires t.Node? && key in Keys(t) && key >= t.key && u == LeanRight(t) && (key != u.key || u.rc.Node?)
    requires u.Node? && Ordered(u) && Keys(u) == Keys(t) && BlackHeight(u) == BlackHeight(t) && key >= u.key
    requires !u.lc.IsRed() && ((u.red && t.red && Leans(u)) || LeansOver(u))
    ensures Removed(t, key, Delete(t, key))
    decreases Nodes(t), 0
  {
    assert u.rc.Node?;
    var v := ReadyRight(u);
    ReadyRightShape(t, u, key);
    ReadyRightKeys(u, key);
    hide ReadyRight, FixUp, LeanRight;
    if key == v.key {
      RemoveOwn(t, v, key);
    } else {
      DeleteCorrect(v.rc, key);
      RemoveBelow(t, v, key, Delete(v.rc, key));
    }
  }

  lemma Parts(v: Tree)
    requires v.Node? && Ordered(v)
    ensures Ordered(v.lc) && Ordered(v.rc) && Keys(v) == Keys(v.lc) + {v.key} + Keys(v.rc)
    ensures (forall x | x in Keys(v.lc) :: x < v.key) && forall x | x in Keys(v.rc) :: v.key < x
  {
  }

  lemma RemoveOwnShape(t: Tree, v: Tree, key: int, k: int)
    requires Poised(t, v, key) && key == v.key
    ensures var r := FixUp(v.(key := k, rc := DeleteMin(v.rc)));
      Leans(r) && BlackHeight(r) == BlackHeight(t) && (r.IsRed() ==> t.IsRed())
  {
    hide FixUp, DeleteMin, Leans, BlackHeight, HasRed, Deletable;
    DeleteMinShape(v.rc);
    FixUpAfterRight(v, k, DeleteMin(v.rc));
  }

  lemma Exchange(a: set<int>, b: set<int>, key: int, least: int, rest: set<int>, before: set<int>, after: set<int>)
    requires key !in a && key !in b && least in b && rest == b - {least}
    requires before == a + {key} + b && after == a + {least} + rest
    ensures after == before - {key}
  {
  }

  lemma RemoveOwnSet(v: Tree, a: set<int>, b: set<int>, least: int, rest: Tree)
    requires v.Node? && Ordered(v.lc) && Keys(v.lc) == a && forall x | x in a :: x < v.key
    requires least in b && (forall x | x in b :: v.key < x && least <= x)
    requires Ordered(rest) && Keys(rest) == b - {least}
    ensures var r := FixUp(v.(key := least, rc := rest)); Ordered(r) && Keys(r) == a + {v.key} + b - {v.key}
  {
    hide *;
    NewRight(v, least, rest);
    Exchange(a, b, v.key, least, Keys(rest), a + {v.key} + b, Keys(FixUp(v.(key := least, rc := rest))));
  }

  lemma RemoveOwnKeys(v: Tree)
    requires v.Node? && Ordered(v) && Leans(v.rc) && HasRed(v.rc)
    ensures var r := FixUp(v.(key := Min(v.rc), rc := DeleteMin(v.rc)));
      Ordered(r) && Keys(r) == Keys(v) - {v.key}
  {
    Parts(v);
    assert v.rc.Node?;
    hide *;
    DeleteMinKeys(v.rc);
    MinIsLeast(v.rc);
    RemoveOwnSet(v, Keys(v.lc), Keys(v.rc), Min(v.rc), DeleteMin(v.rc));
  }

  lemma RemoveOwn(t: Tree, v: Tree, key: int)
    requires Poised(t, v, key) && Ordered(v) && Keys(v) == Keys(t) && key == v.key
    ensures Removed(t, key, FixUp(v.(key := Min(v.rc), rc := DeleteMin(v.rc))))
  {
    hide FixUp, DeleteMin, Min, Keys, Ordered, Leans, BlackHeight, HasRed, Deletable;
    RemoveOwnShape(t, v, key, Min(v.rc));
    RemoveOwnKeys(v);
  }

  lemma RemoveBelow(t: Tree, v: Tree, key: int, r: Tree)
    requires Poised(t, v, key) && Ordered(v) && Keys(v) == Keys(t) && key > v.key && Removed(v.rc, key, r)
    ensures Removed(t, key, FixUp(v.(rc := r)))
  {
    Parts(v);
    hide FixUp, Keys, Ordered, Leans, BlackHeight;
    FixUpAfterRight(v, v.key, r);
    NewRight(v, v.key, r);
    assert v.(key := v.key, rc := r) == v.(rc := r);
  }

  // ---------- Sizes and height ----------

  /** Every size field counts the nodes below it. */
  predicate Sized(t: Tree) {
    t.Node? ==> Sized(t.lc) && Sized(t.rc) && t.size == Nodes(t)
  }

  /** As Sized, but the root's own size may be out of date. */
  predicate SizedBelow(t: Tree) {
    t.Node? ==> Sized(t.lc) && Sized(t.rc)
  }

  lemma SizeIsNodes(t: Tree)
    requires Sized(t)
    ensures t.Size() == Nodes(t)
  {
  }

  lemma RotateLeftSizes(t: Tree)
    requires SizedBelow(t)
    ensures SizedBelow(RotateLeft(t)) && (Sized(t) ==> Sized(RotateLeft(t)))
  {
    if t.Node? && t.rc.Node? {
      SizeIsNodes(t.lc);
      SizeIsNodes(t.rc.lc);
      assert Sized(RotateLeft(t).lc);
    }
  }

  lemma RotateRightSizes(t: Tree)
    requires SizedBelow(t)
    ensures SizedBelow(RotateRight(t)) && (Sized(t) ==> Sized(RotateRight(t)))
  {
    if t.Node? && t.lc.Node? {
      SizeIsNodes(t.rc);
      SizeIsNodes(t.lc.rc);
      assert Sized(RotateRight(t).rc);
    }
  }

  lemma ColorFlipSizes(t: Tree)
    requires SizedBelow(t)
    ensures SizedBelow(ColorFlip(t)) && (Sized(t) ==> Sized(ColorFlip(t)))
  {
    if t.Node? && t.lc.Node? && t.rc.Node? {
      assert Sized(ColorFlip(t).lc) && Sized(ColorFlip(t).rc);
    }
  }

  lemma FixUpSizes(t: Tree)
    requires SizedBelow(t)
    ensures Sized(FixUp(t))
  {
    RotateLeftSizes(t);
    RotateRightSizes(LeanLeft(t));
    ColorFlipSizes(Unstack(LeanLeft(t)));
    var c := BreakFour(Unstack(LeanLeft(t)));
    if c.Node? {
      SizeIsNodes(c.lc);
      SizeIsNodes(c.rc);
    }
  }

  lemma ReadySizes(t: Tree)
    requires Sized(t)
    ensures Sized(ReadyLeft(t)) && Sized(ReadyRight(t)) && Sized(LeanRight(t))
  {
    RotateRightSizes(t);
    ColorFlipSizes(t);
    var a := ColorFlip(t);
    hide ColorFlip, RotateLeft, RotateRight;
    RotateRightSizes(a);
    ColorFlipSizes(RotateRight(a));
    if a.Node? {
      RotateRightSizes(a.rc);
      var b := a.(rc := RotateRight(a.rc));
      assert Sized(b);
      RotateLeftSizes(b);
      ColorFlipSizes(RotateLeft(b));
    }
  }

  lemma {:induction false} InsertSizes(t: Tree, key: int)
    requires Sized(t)
    ensures Sized(Insert(t, key))
  {
    if t.Node? {
      hide FixUp;
      InsertSizes(t.lc, key);
      InsertSizes(t.rc, key);
      FixUpSizes(t);
      FixUpSizes(t.(lc := Insert(t.lc, key)));
      FixUpSizes(t.(rc := Insert(t.rc, key)));
    } else {
      var n := Node(true, 1, key, Nil, Nil);
      assert Insert(t, key) == n && Nodes(n) == 1 && Sized(n);
    }
  }

  lemma {:induction false} DeleteMinSizes(t: Tree)
    requires Sized(t)
    ensures Sized(DeleteMin(t))
    decreases Nodes(t)
  {
    if t.Node? && t.lc.Node? {
      var u := ReadyLeft(t);
      ReadySizes(t);
      hide FixUp, ReadyLeft;
      DeleteMinSizes(u.lc);
      FixUpSizes(u.(lc := DeleteMin(u.lc)));
    }
  }

  lemma SizedParts(t: Tree)
    requires Sized(t) && t.Node?
    ensures Sized(t.lc) && Sized(t.rc)
  {
  }

  lemma FixUpOfParts(t: Tree)
    requires t.Node? && Sized(t.lc) && Sized(t.rc)
    ensures Sized(FixUp(t))
  {
    hide FixUp;
    FixUpSizes(t);
  }

  lemma NilIsSized()
    ensures Sized(Nil)
  {
  }

  lemma {:induction false} DeleteSizes(t: Tree, key: int)
    requires Sized(t)
    ensures Sized(Delete(t, key))
    decreases Nodes(t)
  {
    if t.Node? {
      hide FixUp, ReadyLeft, LeanRight, ReadyRight, Min, Sized;
      var l, u := ReadyLeft(t), LeanRight(t);
      var v := ReadyRight(u);
      ReadySizes(t);
      if key < t.key {
        SizedParts(l);
        DeleteSizes(l.lc, key);
        FixUpOfParts(l.(lc := Delete(l.lc, key)));
      } else {
        ReadySizes(u);
        SizedParts(v);
        DeleteSizes(v.rc, key);
        DeleteMinSizes(v.rc);
        NilIsSized();
        FixUpOfParts(v.(key := Min(v.rc), rc := DeleteMin(v.rc)));
        FixUpOfParts(v.(rc := Delete(v.rc, key)));
      }
    }
  }

  lemma Disjoint(a: set<int>, b: set<int>, k: int)
    requires (forall x | x in a :: x < k) && forall x | x in b :: k < x
    ensures |a + {k} + b| == |a| + 1 + |b|
  {
    forall x | x in a ensures x !in b {}
    assert k !in a && k !in b && a !! b;
  }

  lemma {:induction false} NodesAreKeys(t: Tree)
    requires Ordered(t)
    ensures Nodes(t) == |Keys(t)|
  {
    if t.Node? {
      NodesAreKeys(t.lc);
      NodesAreKeys(t.rc);
      Parts(t);
      Disjoint(Keys(t.lc), Keys(t.rc), t.key);
    }
  }

  function Height(t: Tree): nat {
    if t.Nil? then 0 else 1 + if Height(t.lc) > Height(t.rc) then Height(t.lc) else Height(t.rc)
  }

  /** The nodes that a search for the key visits. */
  function Visits(t: Tree, key: int): nat {
    if t.Nil? then 0 else 1 + if key == t.key then 0 else if key < t.key then Visits(t.lc, key) else Visits(t.rc, key)
  }

  /** No search visits more nodes than the height, which is one more than that of the higher subtree. */
  lemma {:induction false} HeightBoundsSearch(t: Tree, key: int)
    ensures Visits(t, key) <= Height(t)
    ensures t.Node? ==> Height(t) > Height(t.lc) && Height(t) > Height(t.rc)
    ensures t.Node? ==> Height(t) == Height(t.lc) + 1 || Height(t) == Height(t.rc) + 1
  {
    if t.Node? {
      HeightBoundsSearch(t.lc, key);
      HeightBoundsSearch(t.rc, key);
    }
  }

  lemma {:induction false} HeightWithinBlackHeight(t: Tree)
    requires Leans(t)
    ensures Height(t) <= 2 * BlackHeight(t) + if t.IsRed() then 1 else 0
    ensures Pow2(BlackHeight(t)) <= Nodes(t) + 1
  {
    if t.Node? {
      HeightWithinBlackHeight(t.lc);
      HeightWithinBlackHeight(t.rc);
    }
  }

  /** The height is at most twice the binary logarithm of the number of nodes plus one. */
  lemma HeightIsLogarithmic(t: Tree)
    requires Leans(t) && !t.IsRed()
    ensures Pow2((Height(t) + 1) / 2) <= Nodes(t) + 1
  {
    HeightWithinBlackHeight(t);
    Pow2Monotone((Height(t) + 1) / 2, BlackHeight(t));
  }

  // ---------- The set ----------

  /** The tree behind a set between operations. */
  predicate IsSet(t: Tree) {
    Leans(t) && !t.IsRed() && Ordered(t) && Sized(t)
  }

  function SetInsert(t: Tree, key: int): Tree {
    Recolor(Insert(t, key), false)
  }

  function Count(t: Tree, key: int): nat {
    if t.Nil? then 0 else if key == t.key then 1 else if key < t.key then Count(t.lc, key) else Count(t.rc, key)
  }

  function Readied(t: Tree): Tree {
    if t.Node? && !t.lc.IsRed() && !t.rc.IsRed() then Recolor(t, true) else t
  }

  function SetErase(t: Tree, key: int): Tree {
    if Count(t, key) > 0 then Recolor(Delete(Readied(t), key), false) else t
  }

  lemma {:induction false} CountIsMembership(t: Tree, key: int)
    requires Ordered(t)
    ensures Count(t, key) == if key in Keys(t) then 1 else 0
  {
    if t.Node? {
      CountIsMembership(t.lc, key);
      CountIsMembership(t.rc, key);
    }
  }

  lemma RecolorKeeps(t: Tree, red: bool)
    ensures Keys(Recolor(t, red)) == Keys(t) && (Ordered(t) ==> Ordered(Recolor(t, red)))
    ensures Sized(t) ==> Sized(Recolor(t, red))
    ensures LeansButRoot(t) && !red ==> Leans(Recolor(t, red))
    ensures Leans(t) && t.Node? && !t.lc.IsRed() ==> Leans(Recolor(t, true))
  {
  }

  /** Insertion keeps the set's invariant and adds the key. */
  lemma InsertKeepsSet(t: Tree, key: int)
    requires IsSet(t)
    ensures IsSet(SetInsert(t, key)) && Keys(SetInsert(t, key)) == Keys(t) + {key}
  {
    InsertLeans(t, key);
    InsertKeys(t, key);
    InsertSizes(t, key);
    RecolorKeeps(Insert(t, key), false);
  }

  /** Erasing keeps the set's invariant and removes the key; a missing key changes nothing. */
  lemma EraseKeepsSet(t: Tree, key: int)
    requires IsSet(t)
    ensures IsSet(SetErase(t, key)) && Keys(SetErase(t, key)) == Keys(t) - {key}
    ensures key !in Keys(t) ==> SetErase(t, key) == t
  {
    CountIsMembership(t, key);
    if key in Keys(t) {
      var r := Readied(t);
      RecolorKeeps(t, true);
      assert Deletable(r, key);
      DeleteCorrect(r, key);
      DeleteSizes(r, key);
      RecolorKeeps(Delete(r, key), false);
    }
  }
}

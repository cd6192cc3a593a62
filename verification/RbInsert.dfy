/**
  Insertion into the tree of rbtree.cpp: nodes with parent pointers rewritten in place, and
  counters of repair steps and rotations.
 */
module RbInsert {
  import opened RbShape
  import V = RbShape

  // ---------- Trees and paths in the heap ----------

  function Addr(t: Tree): Node? {
    if t.Nil? then null else t.node
  }

  function Top(c: Path): Node? {
    if |c| == 0 then null else c[0].node
  }

  ghost function Nodes(t: Tree): set<Node> {
    if t.Nil? then {} else {t.node} + Nodes(t.l) + Nodes(t.r)
  }

  ghost function PathNodes(c: Path): set<Node> {
    if |c| == 0 then {} else {c[0].node} + Nodes(c[0].sib) + PathNodes(c[1..])
  }

  /** The objects of s hold the tree t, its root's parent is p, and no object is used twice. */
  ghost predicate Linked(t: Tree, p: Node?, s: set<Node>)
    reads s
  {
    && s == Nodes(t)
    && (t.T? ==>
          && t.node.red == t.red && t.node.data == t.data && t.node.parent == p
          && t.node.left == Addr(t.l) && t.node.right == Addr(t.r)
          && t.node !in Nodes(t.l) && t.node !in Nodes(t.r) && Nodes(t.l) !! Nodes(t.r)
          && Linked(t.l, t.node, Nodes(t.l)) && Linked(t.r, t.node, Nodes(t.r)))
  }

  /** The objects of s hold the path c above the object hole, up to the root. */
  ghost predicate LinkedPath(c: Path, hole: Node?, root: Node?, s: set<Node>)
    reads s
  {
    && s == PathNodes(c)
    && if |c| == 0 then root == hole
       else
         var f := c[0];
         && f.node.red == f.red && f.node.data == f.data && f.node.parent == Top(c[1..])
         && f.node.left == (if f.toLeft then hole else Addr(f.sib))
         && f.node.right == (if f.toLeft then Addr(f.sib) else hole)
         && f.node !in Nodes(f.sib) && f.node !in PathNodes(c[1..]) && Nodes(f.sib) !! PathNodes(c[1..])
         && Linked(f.sib, f.node, Nodes(f.sib)) && LinkedPath(c[1..], f.node, root, PathNodes(c[1..]))
  }

  lemma Open(t: Tree, p: Node?)
    requires Linked(t, p, Nodes(t)) && t.T?
    ensures t.node.red == t.red && t.node.data == t.data && t.node.parent == p
    ensures t.node.left == Addr(t.l) && t.node.right == Addr(t.r)
    ensures t.node !in Nodes(t.l) && t.node !in Nodes(t.r) && Nodes(t.l) !! Nodes(t.r)
    ensures Linked(t.l, t.node, Nodes(t.l)) && Linked(t.r, t.node, Nodes(t.r))
    ensures t.node in Nodes(t) && Nodes(t.l) <= Nodes(t) && Nodes(t.r) <= Nodes(t)
    ensures (t.l.T? ==> t.l.node in Nodes(t.l)) && (t.r.T? ==> t.r.node in Nodes(t.r))
  {
  }

  lemma OpenAway(t: Tree, p: Node?, n: Node)
    requires Linked(t, p, Nodes(t)) && t.T? && n !in Nodes(t)
    ensures t.node in Nodes(t) && t.node.red == t.red && t.node.data == t.data && t.node.left == Addr(t.l) && t.node.right == Addr(t.r)
    ensures t.node !in Nodes(t.l) && t.node !in Nodes(t.r) && Nodes(t.l) !! Nodes(t.r)
    ensures Linked(t.l, t.node, Nodes(t.l)) && Linked(t.r, t.node, Nodes(t.r)) && t.node != n
    ensures forall o | o in Nodes(t.l) || o in Nodes(t.r) :: o != n && o != t.node
  {
  }

  lemma Close(t: Tree, p: Node?)
    requires t.T? && t.node.red == t.red && t.node.data == t.data && t.node.parent == p
    requires t.node.left == Addr(t.l) && t.node.right == Addr(t.r)
    requires t.node !in Nodes(t.l) && t.node !in Nodes(t.r) && Nodes(t.l) !! Nodes(t.r)
    requires Linked(t.l, t.node, Nodes(t.l)) && Linked(t.r, t.node, Nodes(t.r))
    ensures Linked(t, p, Nodes(t)) && Nodes(t) == {t.node} + Nodes(t.l) + Nodes(t.r)
  {
  }

  lemma NilLinked(p: Node?)
    ensures Linked(Nil, p, Nodes(Nil)) && Nodes(Nil) == {}
  {
  }

  lemma OpenPath(c: Path, hole: Node?, root: Node?)
    requires LinkedPath(c, hole, root, PathNodes(c)) && |c| > 0
    ensures var f := c[0];
      && f.node.red == f.red && f.node.data == f.data && f.node.parent == Top(c[1..])
      && f.node.left == (if f.toLeft then hole else Addr(f.sib))
      && f.node.right == (if f.toLeft then Addr(f.sib) else hole)
      && f.node !in Nodes(f.sib) && f.node !in PathNodes(c[1..]) && Nodes(f.sib) !! PathNodes(c[1..])
      && Linked(f.sib, f.node, Nodes(f.sib)) && LinkedPath(c[1..], f.node, root, PathNodes(c[1..]))
      && f.node in PathNodes(c) && Nodes(f.sib) <= PathNodes(c) && PathNodes(c[1..]) <= PathNodes(c)
      && (f.sib.T? ==> f.sib.node in Nodes(f.sib)) && (|c| > 1 ==> c[1].node in PathNodes(c[1..]))
  {
  }

  lemma ClosePath(c: Path, hole: Node?, root: Node?)
    requires |c| > 0
    requires var f := c[0];
      && f.node.red == f.red && f.node.data == f.data && f.node.parent == Top(c[1..])
      && f.node.left == (if f.toLeft then hole else Addr(f.sib))
      && f.node.right == (if f.toLeft then Addr(f.sib) else hole)
      && f.node !in Nodes(f.sib) && f.node !in PathNodes(c[1..]) && Nodes(f.sib) !! PathNodes(c[1..])
      && Linked(f.sib, f.node, Nodes(f.sib)) && LinkedPath(c[1..], f.node, root, PathNodes(c[1..]))
    ensures LinkedPath(c, hole, root, PathNodes(c))
  {
  }

  lemma EmptyPath(hole: Node?, root: Node?)
    ensures LinkedPath([], hole, root, PathNodes([])) <==> root == hole
  {
  }

  /** The whole tree: t at the end of the path c. */
  ghost predicate Held(c: Path, t: Tree, root: Node?, s: set<Node>)
    reads s
  {
    && s == PathNodes(c) + Nodes(t) && PathNodes(c) !! Nodes(t)
    && LinkedPath(c, Addr(t), root, PathNodes(c)) && Linked(t, Top(c), Nodes(t))
  }

  ghost function All(c: Path, t: Tree): set<Node> { PathNodes(c) + Nodes(t) }

  ghost function Opt(n: Node?): set<Node> {
    if n == null then {} else {n}
  }

  /** The same place seen one node further up. */
  lemma Up(c: Path, t: Tree, root: Node?)
    requires Held(c, t, root, All(c, t)) && |c| > 0
    ensures Held(c[1..], c[0].Around(t), root, All(c, t)) && All(c[1..], c[0].Around(t)) == All(c, t)
  {
    var f, u := c[0], c[0].Around(t);
    OpenPath(c, Addr(t), root);
    hide LinkedPath, Linked;
    Close(u, Top(c[1..]));
  }

  lemma {:induction false} AllUp(c: Path, t: Tree, root: Node?)
    requires Held(c, t, root, All(c, t))
    ensures Held([], Plug(c, t), root, All(c, t)) && All([], Plug(c, t)) == All(c, t)
  {
    if |c| > 0 {
      Up(c, t, root);
      AllUp(c[1..], c[0].Around(t), root);
    }
  }

  class RedBlackTree {
    var root: Node?
    var totUnbalance: nat
    var totRotate: nat
    var totColor: nat
    /** The value of the tree, and the node objects that hold it. */
    ghost var tree: Tree
    ghost var repr: set<Node>

    ghost predicate Valid()
      reads this, repr
    {
      && repr == All([], tree) && Held([], tree, root, repr)
      && Good(tree) && !tree.IsRed() && Ascending(InOrder(tree))
      && Paid(totUnbalance, totRotate, totColor, tree)
    }

    constructor ()
      ensures Valid() && tree == Nil
    {
      root, totUnbalance, totRotate, totColor := null, 0, 0, 0;
      tree, repr := Nil, {};
    }

    /** Add a key the tree does not hold: at most two repair steps and two rotations a key, over the whole run. */
    method Insert(data: int)
      requires Valid() && data !in InOrder(tree)
      modifies this, repr
      ensures Valid() && fresh(repr - old(repr))
      ensures Size(tree) == old(Size(tree)) + 1
      ensures forall x :: x in InOrder(tree) <==> x in old(InOrder(tree)) || x == data
      ensures totUnbalance <= 2 * Size(tree) && totRotate <= 2 * Size(tree) && totColor <= 6 * Size(tree)
      ensures var c := PathTo(old(tree), data, []);
        && totUnbalance == old(totUnbalance) + Steps(c) && totRotate == old(totRotate) + Rotations(c)
        && totColor == old(totColor) + Colours(c)
        && exists n: Node :: fresh(n) && tree == Paint(Repaired(c, T(n, true, data, Nil, Nil)), false)
      ensures totRotate <= old(totRotate) + 2
    {
      hide Held, All, Good, Broken, Settled, InOrder, Size, Potential, Nodes, PathNodes, Plug, Linked, LinkedPath;
      hide Steps, Rotations, Colours, Repaired;
      hide WithLeaf, PathTo, Ascending, Hung, Meets;
      OpenHeld([], tree, root);
      EmptyPath(Addr(tree), root);
      OnlyTree(tree);
      ghost var t := tree;
      var newNode := new Node(data);
      root := BSTInsert(root, newNode, t, null);
      ghost var u, c := WithLeaf(t, newNode, data), PathTo(t, data, []);
      NotMet(t, newNode, data);
      repr := repr + {newNode};
      OnlyTree(u);
      EmptyPath(Addr(u), root);
      HeldWhole(u, root);
      Descend(t, data, [], newNode, root);
      LeafReady(t, data, newNode);
      tree := FixViolation(newNode, c, T(newNode, true, data, Nil, Nil));
    }

    /**
      Hang the new node at the end of the search path, unless the search meets its key; the caller gets
      the top of the tree.
     */
    method BSTInsert(n: Node?, pt: Node, ghost t: Tree, ghost p: Node?) returns (r: Node)
      requires Linked(t, p, Nodes(t)) && n == Addr(t) && pt !in Nodes(t)
      requires pt.red && pt.left == pt.right == null
      modifies Nodes(t), pt
      ensures var u := WithLeaf(t, pt, pt.data);
        && Linked(u, r.parent, Nodes(u)) && u.T? && r == u.node && Nodes(u) == Nodes(t) + Hung(t, pt, pt.data)
      ensures r.parent == if n == null then old(pt.parent) else p
      ensures pt.red && pt.data == old(pt.data)
      decreases t
    {
      hide *;
      assert (n == null <==> t.Nil?) && (t.T? ==> n == t.node) by { AddrOf(t); }
      if n == null {
        NewLeaf(pt);
        r := pt;
      } else {
        Open(t, p);
        Exists(t);
        Exists(t.l);
        Exists(t.r);
        MetHere(t, pt);
        if pt.data < n.data {
          var child := BSTInsert(n.left, pt, t.l, n);
          ghost var v := WithLeaf(t.l, pt, pt.data);
          AddrOf(v);
          n.left := child;
          OpenAway(v, child.parent, n);
          n.left.parent := n;
          Close(v, n);
          CloseLeft(t, pt, p);
        } else if pt.data > n.data {
          var child := BSTInsert(n.right, pt, t.r, n);
          ghost var v := WithLeaf(t.r, pt, pt.data);
          AddrOf(v);
          n.right := child;
          OpenAway(v, child.parent, n);
          n.right.parent := n;
          Close(v, n);
          CloseRight(t, pt, p);
        }
        r := n;
      }
    }

    /** Hang y where x hung: under x's parent, or at the root. */
    method Replace(x: Node, y: Node, ghost c: Path)
      requires LinkedPath(c, x, root, PathNodes(c)) && x.parent == Top(c) && x !in PathNodes(c) && y !in PathNodes(c)
      modifies this`root, y`parent, Opt(Top(c))
      ensures LinkedPath(c, y, root, PathNodes(c)) && y.parent == Top(c)
    {
      hide LinkedPath, Linked, PathNodes, Nodes;
      if |c| > 0 { OpenPath(c, x, root); }
      y.parent := x.parent;
      if x.parent == null {
        root := y;
      } else if x == x.parent.left {
        x.parent.left := y;
      } else {
        x.parent.right := y;
      }
      if |c| > 0 { ClosePath(c, y, root); } else { EmptyPath(y, root); }
    }

    method RotateLeft(x: Node, ghost c: Path, ghost t: Tree)
      requires Held(c, t, root, All(c, t)) && t.T? && t.node == x && t.r.T?
      modifies this`root, this`totRotate, x, t.r.node, Opt(Addr(t.r.l)), Opt(Top(c))
      ensures Held(c, V.RotateLeft(t), root, All(c, t)) && All(c, V.RotateLeft(t)) == All(c, t)
      ensures totRotate == old(totRotate) + 1
    {
      hide LinkedPath, PathNodes, Linked, Nodes, Held, All, Apart, V.RotateLeft;
      OpenHeld(c, t, root);
      SeparateRight(t, Top(c));
      totRotate := totRotate + 1;
      var y := x.right;
      x.right := y.left;
      if y.left != null {
        y.left.parent := x;
      }
      Replace(x, y, c);
      y.left := x;
      x.parent := y;
      MakeRotatedLeft(t, Top(c));
      CloseHeld(c, t, V.RotateLeft(t), root);
    }

    method RotateRight(x: Node, ghost c: Path, ghost t: Tree)
      requires Held(c, t, root, All(c, t)) && t.T? && t.node == x && t.l.T?
      modifies this`root, this`totRotate, x, t.l.node, Opt(Addr(t.l.r)), Opt(Top(c))
      ensures Held(c, V.RotateRight(t), root, All(c, t)) && All(c, V.RotateRight(t)) == All(c, t)
      ensures totRotate == old(totRotate) + 1
    {
      hide LinkedPath, PathNodes, Linked, Nodes, Held, All, Apart, V.RotateRight;
      OpenHeld(c, t, root);
      SeparateLeft(t, Top(c));
      totRotate := totRotate + 1;
      var y := x.left;
      x.left := y.right;
      if y.right != null {
        y.right.parent := x;
      }
      Replace(x, y, c);
      y.right := x;
      x.parent := y;
      MakeRotatedRight(t, Top(c));
      CloseHeld(c, t, V.RotateRight(t), root);
    }

    /** Grandparent red, parent and uncle black. */
    method Recolour(grand: Node, parent: Node, uncle: Node, ghost c: Path, ghost f: Frame, ghost g: Frame, ghost t: Tree)
      requires Held(c, g.Around(f.Around(t)), root, All(c, g.Around(f.Around(t)))) && g.sib.T?
      requires grand == g.node && parent == f.node && uncle == g.sib.node
      modifies this`totColor, grand`red, parent`red, uncle`red
      ensures Held(c, V.Recoloured(f, g, t), root, All(c, g.Around(f.Around(t)))) && totColor == old(totColor) + 3
      ensures All(c, V.Recoloured(f, g, t)) == All(c, g.Around(f.Around(t))) && Addr(V.Recoloured(f, g, t)) == grand
    {
      hide LinkedPath, PathNodes, Linked, Nodes, Held, All, V.Recoloured;
      ghost var u := g.Around(f.Around(t));
      OpenHeld(c, u, root);
      SeparateThree(f, g, t, Top(c));
      grand.red := true;
      parent.red := false;
      uncle.red := false;
      totColor := totColor + 3;
      MakeRecoloured(f, g, t, Top(c));
      CloseHeld(c, u, V.Recoloured(f, g, t), root);
    }

    /** After the rotations: the top node black, the old grandparent below it red. */
    method PaintPair(top: Node, child: Node, ghost c: Path, ghost u: Tree, ghost rightChild: bool)
      requires Held(c, u, root, All(c, u)) && u.T? && top == u.node
      requires if rightChild then u.r.T? && child == u.r.node else u.l.T? && child == u.l.node
      modifies this`totColor, top`red, child`red
      ensures Held(c, Painted(u, rightChild), root, All(c, u)) && All(c, Painted(u, rightChild)) == All(c, u)
      ensures Addr(Painted(u, rightChild)) == top && totColor == old(totColor) + 2
    {
      hide LinkedPath, PathNodes, Linked, Nodes, Held, All, Painted;
      OpenHeld(c, u, root);
      SeparateTop(u, Top(c));
      top.red := false;
      child.red := true;
      totColor := totColor + 2;
      MakePainted(u, Top(c), rightChild);
      CloseHeld(c, u, Painted(u, rightChild), root);
    }

    /** The last step below a left child: one or two rotations and two colours. */
    method SettleLeft(pt: Node, parent: Node, grand: Node, ghost c: Path, ghost t: Tree) returns (top: Node)
      requires |c| > 1 && Held(c, t, root, All(c, t)) && t.T? && pt == t.node && parent == c[0].node && grand == c[1].node
      requires parent == grand.left
      modifies this`root, this`totRotate, this`totColor, All(c, t)
      ensures Held(c[2..], V.Rotated(c[0], c[1], t), root, All(c, t))
      ensures All(c[2..], V.Rotated(c[0], c[1], t)) == All(c, t) && top == Addr(V.Rotated(c[0], c[1], t))
      ensures totRotate == old(totRotate) + (if c[0].toLeft == c[1].toLeft then 1 else 2) && totColor == old(totColor) + 2
    {
      hide Held, All, Nodes, PathNodes, Linked, LinkedPath, V.Rotated, Painted;
      ghost var f, g, c1, c2 := c[0], c[1], c[1..], c[2..];
      assert c1[1..] == c2 && c1[0] == g;
      ghost var p := f.Around(t);
      Sides(c, t, root);
      InAll(c, t, root);
      Up(c, t, root);
      RotatedLeft(f, g, t);
      if pt == parent.left {
        Up(c1, p, root);
        RotateRight(grand, c2, g.Around(p));
        PaintPair(parent, grand, c2, V.RotateRight(g.Around(p)), true);
        top := parent;
      } else {
        RotateLeft(parent, c1, p);
        Up(c1, V.RotateLeft(p), root);
        RotateRight(grand, c2, g.Around(V.RotateLeft(p)));
        PaintPair(pt, grand, c2, V.RotateRight(g.Around(V.RotateLeft(p))), true);
        top := pt;
      }
    }

    /** The last step below a right child. */
    method SettleRight(pt: Node, parent: Node, grand: Node, ghost c: Path, ghost t: Tree) returns (top: Node)
      requires |c| > 1 && Held(c, t, root, All(c, t)) && t.T? && pt == t.node && parent == c[0].node && grand == c[1].node
      requires parent != grand.left
      modifies this`root, this`totRotate, this`totColor, All(c, t)
      ensures Held(c[2..], V.Rotated(c[0], c[1], t), root, All(c, t))
      ensures All(c[2..], V.Rotated(c[0], c[1], t)) == All(c, t) && top == Addr(V.Rotated(c[0], c[1], t))
      ensures totRotate == old(totRotate) + (if c[0].toLeft == c[1].toLeft then 1 else 2) && totColor == old(totColor) + 2
    {
      hide Held, All, Nodes, PathNodes, Linked, LinkedPath, V.Rotated, Painted;
      ghost var f, g, c1, c2 := c[0], c[1], c[1..], c[2..];
      assert c1[1..] == c2 && c1[0] == g;
      ghost var p := f.Around(t);
      Sides(c, t, root);
      InAll(c, t, root);
      Up(c, t, root);
      RotatedRight(f, g, t);
      if pt == parent.left {
        RotateRight(parent, c1, p);
        Up(c1, V.RotateRight(p), root);
        RotateLeft(grand, c2, g.Around(V.RotateRight(p)));
        PaintPair(pt, grand, c2, V.RotateLeft(g.Around(V.RotateRight(p))), false);
        top := pt;
      } else {
        Up(c1, p, root);
        RotateLeft(grand, c2, g.Around(p));
        PaintPair(parent, grand, c2, V.RotateLeft(g.Around(p)), false);
        top := parent;
      }
    }

    method Settle(pt: Node, parent: Node, grand: Node, ghost c: Path, ghost t: Tree) returns (top: Node)
      requires |c| > 1 && Held(c, t, root, All(c, t)) && t.T? && pt == t.node && parent == c[0].node && grand == c[1].node
      modifies this`root, this`totRotate, this`totColor, All(c, t)
      ensures Held(c[2..], V.Rotated(c[0], c[1], t), root, All(c, t))
      ensures All(c[2..], V.Rotated(c[0], c[1], t)) == All(c, t) && top == Addr(V.Rotated(c[0], c[1], t))
      ensures totRotate == old(totRotate) + (if c[0].toLeft == c[1].toLeft then 1 else 2) && totColor == old(totColor) + 2
    {
      hide *;
      if parent == grand.left {
        top := SettleLeft(pt, parent, grand, c, t);
      } else {
        top := SettleRight(pt, parent, grand, c, t);
      }
    }

    /** One step of the loop: a recolouring below a red uncle, the last step below a black one. */
    method RepairStep(pt: Node, ghost c: Path, ghost t: Tree) returns (top: Node, ghost u: Tree)
      requires |c| > 1 && Held(c, t, root, All(c, t)) && t.T? && pt == t.node && pt.parent != null
      modifies this`root, this`totUnbalance, this`totRotate, this`totColor, All(c, t)
      ensures u == if c[1].sib.IsRed() then V.Recoloured(c[0], c[1], t) else V.Rotated(c[0], c[1], t)
      ensures Held(c[2..], u, root, All(c, t)) && All(c[2..], u) == All(c, t) && top == Addr(u)
      ensures totUnbalance == old(totUnbalance) + 1
      ensures totRotate == old(totRotate) + if c[1].sib.IsRed() then 0 else if c[0].toLeft == c[1].toLeft then 1 else 2
      ensures totColor == old(totColor) + if c[1].sib.IsRed() then 3 else 2
    {
      hide Held, All, Nodes, PathNodes, Plug, Linked, LinkedPath, V.Recoloured, V.Rotated;
      totUnbalance := totUnbalance + 1;
      InAll(c, t, root);
      Sides(c, t, root);
      var parent := pt.parent;
      var grand := parent.parent;
      var uncle := if parent == grand.left then grand.right else grand.left;
      UncleIs(c, t, root);
      if uncle != null && uncle.red {
        Up(c, t, root);
        Up(c[1..], c[0].Around(t), root);
        Recolour(grand, parent, uncle, c[2..], c[0], c[1], t);
        top, u := grand, V.Recoloured(c[0], c[1], t);
      } else {
        top := Settle(pt, parent, grand, c, t);
        u := V.Rotated(c[0], c[1], t);
      }
    }

    /** Repair upwards from a red node until its parent is black, then paint the root black. */
    method FixViolation(pt0: Node, ghost c0: Path, ghost t0: Tree) returns (ghost whole: Tree)
      requires Held(c0, t0, root, All(c0, t0)) && t0.T? && pt0 == t0.node
      requires Broken(c0, t0) || Settled(c0, t0)
      modifies this`root, this`totUnbalance, this`totRotate, this`totColor, All(c0, t0)
      ensures Held([], whole, root, All(c0, t0)) && All([], whole) == All(c0, t0)
      ensures Good(whole) && !whole.IsRed() && whole.T?
      ensures InOrder(whole) == InOrder(Plug(c0, t0)) && Size(whole) == Size(Plug(c0, t0))
      ensures totUnbalance + Potential(whole) <= old(totUnbalance) + Potential(Plug(c0, t0)) + if Broken(c0, t0) then 2 else 0
      ensures totRotate <= old(totRotate) + 2
      ensures totColor - old(totColor) <= 3 * (totUnbalance - old(totUnbalance))
      ensures t0.red ==> whole == Paint(Repaired(c0, t0), false) && totUnbalance == old(totUnbalance) + Steps(c0)
      ensures t0.red ==> totRotate == old(totRotate) + Rotations(c0) && totColor == old(totColor) + Colours(c0)
    {
      hide Held, All, Good, Broken, Settled, InOrder, Size, Potential, Nodes, PathNodes, Plug, Linked, LinkedPath;
      hide V.Recoloured, V.Rotated, Counted, Steps, Rotations, Colours, Repaired;
      var pt := pt0;
      ghost var c, t := c0, t0;
      if t.red { NothingCounted(c, t); }
      Guard(c, t, root);
      while pt != root && pt.red && pt.parent.red
        invariant Held(c, t, root, All(c0, t0)) && All(c, t) == All(c0, t0) && t.T? && pt == t.node
        invariant Broken(c, t) || Settled(c, t)
        invariant pt != root ==> pt.parent != null
        invariant (pt != root && pt.red && pt.parent.red) <==> Broken(c, t)
        invariant InOrder(Plug(c, t)) == InOrder(Plug(c0, t0)) && Size(Plug(c, t)) == Size(Plug(c0, t0))
        invariant totUnbalance + Potential(Plug(c, t)) <=
                    old(totUnbalance) + Potential(Plug(c0, t0)) + if Broken(c, t) || !Broken(c0, t0) then 0 else 2
        invariant Broken(c, t) ==> Broken(c0, t0) && totRotate == old(totRotate)
        invariant totRotate <= old(totRotate) + 2
        invariant totColor - old(totColor) <= 3 * (totUnbalance - old(totUnbalance))
        invariant t0.red ==> Counted(c0, t0, c, t, totUnbalance - old(totUnbalance), totRotate - old(totRotate), totColor - old(totColor))
        decreases |c|
      {
        ghost var steps, rotations, colours :=
          totUnbalance - old(totUnbalance), totRotate - old(totRotate), totColor - old(totColor);
        TwoAbove(c, t);
        ghost var u;
        if c[1].sib.IsRed() { StepUp(c, t); } else { StepLast(c, t); }
        pt, u := RepairStep(pt, c, t);
        if t0.red { StepIsCounted(c0, t0, c, t, u, steps, rotations, colours); }
        c, t := c[2..], u;
        EitherOr(c, t);
        Guard(c, t, root);
      }
      if t0.red { AllCounted(c0, t0, c, t, totUnbalance - old(totUnbalance), totRotate - old(totRotate), totColor - old(totColor)); }
      BlackRoot(c, t);
      AllUp(c, t, root);
      PlugInAll(c, t);
      whole := PaintRoot(Plug(c, t));
    }

    /** root->color = BLACK */
    method PaintRoot(ghost w: Tree) returns (ghost whole: Tree)
      requires Held([], w, root, All([], w)) && w.T?
      modifies w.node
      ensures whole == Paint(w, false) && Held([], whole, root, All([], w)) && All([], whole) == All([], w)
    {
      hide Held, All, Nodes, PathNodes, Linked, LinkedPath;
      OpenHeld([], w, root);
      EmptyPath(Addr(w), root);
      SeparateTop(w, null);
      LinkedApart(w, null);
      root.red := false;
      whole := Paint(w, false);
      BlackTop(w, null);
      EmptyPath(Addr(whole), root);
      CloseHeld([], w, whole, root);
    }
  }

  /** The node itself, if the search for its key does not meet the key. */
  ghost function Hung(t: Tree, n: Node, key: int): (s: set<Node>)
    ensures s <= {n}
  {
    if Meets(t, key) then {} else {n}
  }

  lemma MetHere(t: Tree, pt: Node)
    requires t.T?
    ensures pt.data == t.data ==> WithLeaf(t, pt, pt.data) == t && Hung(t, pt, pt.data) == {}
  {
  }

  lemma NewLeaf(pt: Node)
    requires pt.red && pt.left == pt.right == null
    ensures var u := WithLeaf(Nil, pt, pt.data);
      u.T? && u.node == pt && Linked(u, pt.parent, Nodes(u)) && Nodes(u) == Nodes(Nil) + Hung(Nil, pt, pt.data)
  {
    NilLinked(pt);
    Close(T(pt, true, pt.data, Nil, Nil), pt.parent);
  }

  lemma CloseLeft(t: Tree, pt: Node, p: Node?)
    requires t.T? && pt.data < t.data && pt !in Nodes(t)
    requires t.node !in Nodes(t.l) && t.node !in Nodes(t.r) && Nodes(t.l) !! Nodes(t.r)
    requires var v := WithLeaf(t.l, pt, pt.data);
      && t.node.red == t.red && t.node.data == t.data && t.node.parent == p
      && t.node.left == Addr(v) && t.node.right == Addr(t.r)
      && Nodes(v) == Nodes(t.l) + Hung(t.l, pt, pt.data) && Linked(v, t.node, Nodes(v)) && Linked(t.r, t.node, Nodes(t.r))
    ensures var u := WithLeaf(t, pt, pt.data);
      u.T? && u.node == t.node && Linked(u, p, Nodes(u)) && Nodes(u) == Nodes(t) + Hung(t, pt, pt.data)
  {
    var v := WithLeaf(t.l, pt, pt.data);
    assert WithLeaf(t, pt, pt.data) == T(t.node, t.red, t.data, v, t.r);
    hide WithLeaf, Linked;
    Close(T(t.node, t.red, t.data, v, t.r), p);
  }

  lemma CloseRight(t: Tree, pt: Node, p: Node?)
    requires t.T? && pt.data > t.data && pt !in Nodes(t)
    requires t.node !in Nodes(t.l) && t.node !in Nodes(t.r) && Nodes(t.l) !! Nodes(t.r)
    requires var v := WithLeaf(t.r, pt, pt.data);
      && t.node.red == t.red && t.node.data == t.data && t.node.parent == p
      && t.node.right == Addr(v) && t.node.left == Addr(t.l)
      && Nodes(v) == Nodes(t.r) + Hung(t.r, pt, pt.data) && Linked(v, t.node, Nodes(v)) && Linked(t.l, t.node, Nodes(t.l))
    ensures var u := WithLeaf(t, pt, pt.data);
      u.T? && u.node == t.node && Linked(u, p, Nodes(u)) && Nodes(u) == Nodes(t) + Hung(t, pt, pt.data)
  {
    var v := WithLeaf(t.r, pt, pt.data);
    assert WithLeaf(t, pt, pt.data) == T(t.node, t.red, t.data, t.l, v);
    hide WithLeaf, Linked;
    Close(T(t.node, t.red, t.data, t.l, v), p);
  }

  lemma AddrOf(t: Tree)
    ensures (Addr(t) == null <==> t.Nil?) && (t.T? ==> Addr(t) == t.node)
  {
  }

  lemma PlugInAll(c: Path, t: Tree)
    requires t.T? && All([], Plug(c, t)) == All(c, t)
    ensures Plug(c, t).T? ==> Plug(c, t).node in All(c, t)
  {
  }

  /** The counters are paid for by the nodes, two repair steps each, with the potential in reserve. */
  predicate Paid(unbalance: nat, rotate: nat, color: nat, t: Tree) {
    && unbalance + Potential(t) <= 2 * Size(t) && rotate <= 2 * Size(t) && color <= 3 * unbalance
  }

  lemma NotMet(t: Tree, n: Node, key: int)
    requires key !in InOrder(t)
    ensures Hung(t, n, key) == {n}
  {
    MetKeyIsDropped(t, n, key);
  }

  lemma NotInParts(t: Tree, key: int)
    requires t.T? && key !in InOrder(t)
    ensures key !in InOrder(t.l) && key !in InOrder(t.r) && key != t.data
  {
    assert t.data in InOrder(t);
    assert (forall x | x in InOrder(t.l) :: x in InOrder(t)) && forall x | x in InOrder(t.r) :: x in InOrder(t);
  }

  lemma OnlyTree(t: Tree)
    ensures All([], t) == Nodes(t) && PathNodes([]) == {}
  {
  }

  lemma HeldWhole(t: Tree, root: Node?)
    requires Linked(t, null, Nodes(t)) && root == Addr(t)
    ensures Held([], t, root, All([], t))
  {
  }

  /** The same place seen one node further down. */
  lemma Down(c: Path, t: Tree, root: Node?, toLeft: bool)
    requires Held(c, t, root, All(c, t)) && t.T?
    ensures var f := if toLeft then F(t.node, t.red, t.data, true, t.r) else F(t.node, t.red, t.data, false, t.l);
      var u := if toLeft then t.l else t.r;
      Held([f] + c, u, root, All(c, t)) && All([f] + c, u) == All(c, t)
  {
    var f := if toLeft then F(t.node, t.red, t.data, true, t.r) else F(t.node, t.red, t.data, false, t.l);
    var u := if toLeft then t.l else t.r;
    assert ([f] + c)[1..] == c;
    OpenHeld(c, t, root);
    Open(t, Top(c));
    hide LinkedPath, Linked;
    ClosePath([f] + c, Addr(u), root);
  }

  lemma {:induction false} Descend(t: Tree, key: int, above: Path, n: Node, root: Node?)
    requires Held(above, WithLeaf(t, n, key), root, All(above, WithLeaf(t, n, key))) && key !in InOrder(t)
    ensures var leaf, c := T(n, true, key, Nil, Nil), PathTo(t, key, above);
      Held(c, leaf, root, All(above, WithLeaf(t, n, key))) && All(c, leaf) == All(above, WithLeaf(t, n, key))
    decreases t
  {
    if t.T? {
      NotInParts(t, key);
      Down(above, WithLeaf(t, n, key), root, key < t.data);
      if key < t.data {
        Descend(t.l, key, [F(t.node, t.red, t.data, true, t.r)] + above, n, root);
      } else {
        Descend(t.r, key, [F(t.node, t.red, t.data, false, t.l)] + above, n, root);
      }
    }
  }

  /** The new leaf is the only place that may need repair, and it raises the potential by at most one. */
  lemma LeafReady(t: Tree, key: int, n: Node)
    requires Good(t) && !t.IsRed() && Ascending(InOrder(t)) && key !in InOrder(t)
    ensures var leaf, c, u := T(n, true, key, Nil, Nil), PathTo(t, key, []), WithLeaf(t, n, key);
      && (Broken(c, leaf) || Settled(c, leaf)) && Plug(c, leaf) == u
      && Ascending(InOrder(u)) && (forall x :: x in InOrder(u) <==> x in InOrder(t) || x == key)
      && Size(u) == Size(t) + 1
      && Potential(u) <= Potential(t) + if Broken(c, leaf) then 0 else 1
  {
    var leaf, c := T(n, true, key, Nil, Nil), PathTo(t, key, []);
    PathPlugs(t, key, [], n);
    LeafKeepsOrder(t, n, key);
    PathIsGood(t, key, []);
    PotentialOfPlug(c, leaf);
    PotentialOfPlug(c, Nil);
    HoleColour(c);
  }

  lemma BlackTop(w: Tree, p: Node?)
    requires w.T? && Apart(w) && !w.node.red && w.node.data == w.data && w.node.parent == p
    requires w.node.left == Addr(w.l) && w.node.right == Addr(w.r)
    requires Linked(w.l, w.node, Nodes(w.l)) && Linked(w.r, w.node, Nodes(w.r))
    ensures Linked(Paint(w, false), p, Nodes(Paint(w, false))) && Nodes(Paint(w, false)) == Nodes(w)
  {
    Close(Paint(w, false), p);
  }

  lemma {:induction false} RootInPath(c: Path, hole: Node?, root: Node?)
    requires LinkedPath(c, hole, root, PathNodes(c)) && |c| > 0
    ensures root != null && root in PathNodes(c)
  {
    if |c| > 1 { RootInPath(c[1..], c[0].node, root); }
  }

  /** The uncle that the step looks at is the sibling on the path. */
  lemma UncleIs(c: Path, t: Tree, root: Node?)
    requires Held(c, t, root, All(c, t)) && |c| > 1 && t.T?
    ensures var grand := c[1].node;
      Addr(c[1].sib) == if c[0].node == grand.left then grand.right else grand.left
    ensures c[1].sib.T? ==> c[1].sib.node.red == c[1].sib.red
  {
    Sides(c, t, root);
  }

  /** The loop's guard holds exactly where the tree is broken. */
  lemma Guard(c: Path, t: Tree, root: Node?)
    requires Held(c, t, root, All(c, t)) && t.T? && (Broken(c, t) || Settled(c, t))
    ensures t.node != root ==> t.node.parent != null
    ensures (t.node != root && t.node.red && t.node.parent.red) <==> Broken(c, t)
  {
    if |c| > 0 {
      RootInPath(c, t.node, root);
      OpenPath(c, t.node, root);
    }
  }

  lemma EitherOr(c: Path, t: Tree)
    ensures !(Settled(c, t) && Broken(c, t))
  {
  }

  lemma TwoAbove(c: Path, t: Tree)
    requires Broken(c, t)
    ensures |c| > 1
  {
  }

  /** On which sides the node and its parent hang. */
  lemma Sides(c: Path, t: Tree, root: Node?)
    requires Held(c, t, root, All(c, t)) && |c| > 1 && t.T?
    ensures c[1].node.left == c[0].node <==> c[1].toLeft
    ensures c[0].node.left == t.node <==> c[0].toLeft
    ensures c[0].node.parent == c[1].node && t.node.parent == c[0].node
    ensures c[1].toLeft ==> c[1].node.right == Addr(c[1].sib)
    ensures !c[1].toLeft ==> c[1].node.left == Addr(c[1].sib)
    ensures c[1].sib.T? ==> c[1].sib.node.red == c[1].sib.red
  {
    OpenHeld(c, t, root);
    OpenPath(c, Addr(t), root);
    assert c[1..][0] == c[1];
    OpenPath(c[1..], c[0].node, root);
    hide LinkedPath, Linked;
    Open(t, c[0].node);
    if c[1].sib.T? { Open(c[1].sib, c[1].node); }
  }

  /** Every object of the place belongs to the whole. */
  lemma InAll(c: Path, t: Tree, root: Node?)
    requires Held(c, t, root, All(c, t)) && |c| > 1 && t.T?
    ensures t.node in All(c, t) && c[0].node in All(c, t) && c[1].node in All(c, t)
    ensures c[1].sib.T? ==> c[1].sib.node in All(c, t)
    ensures t.l.T? ==> t.l.node in All(c, t)
    ensures t.r.T? ==> t.r.node in All(c, t)
    ensures c[0].sib.T? ==> c[0].sib.node in All(c, t)
    ensures |c| > 2 ==> c[2].node in All(c, t)
  {
    assert c[1..][0] == c[1];
    assert PathNodes(c[1..]) == {c[1].node} + Nodes(c[1].sib) + PathNodes(c[1..][1..]);
    assert |c| > 2 ==> c[1..][1..][0] == c[2];
  }

  function Painted(u: Tree, rightChild: bool): Tree {
    if u.Nil? then u
    else if rightChild then T(u.node, false, u.data, u.l, Paint(u.r, true))
    else T(u.node, false, u.data, Paint(u.l, true), u.r)
  }

  lemma RotatedLeft(f: Frame, g: Frame, t: Tree)
    requires g.toLeft && t.T?
    ensures var p := if f.toLeft then f.Around(t) else V.RotateLeft(f.Around(t));
      && p.T? && V.Rotated(f, g, t) == Painted(V.RotateRight(g.Around(p)), true)
      && V.RotateRight(g.Around(p)).T? && V.RotateRight(g.Around(p)).r.T?
      && V.RotateRight(g.Around(p)).node == p.node && V.RotateRight(g.Around(p)).r.node == g.node
      && p.node == if f.toLeft then f.node else t.node
  {
  }

  lemma RotatedRight(f: Frame, g: Frame, t: Tree)
    requires !g.toLeft && t.T?
    ensures var p := if f.toLeft then V.RotateRight(f.Around(t)) else f.Around(t);
      && p.T? && V.Rotated(f, g, t) == Painted(V.RotateLeft(g.Around(p)), false)
      && V.RotateLeft(g.Around(p)).T? && V.RotateLeft(g.Around(p)).l.T?
      && V.RotateLeft(g.Around(p)).node == p.node && V.RotateLeft(g.Around(p)).l.node == g.node
      && p.node == if f.toLeft then t.node else f.node
  {
  }

  lemma SeparateTop(u: Tree, p: Node?)
    requires Linked(u, p, Nodes(u)) && u.T?
    ensures u.node in Nodes(u) && (u.l.T? ==> u.l.node in Nodes(u)) && (u.r.T? ==> u.r.node in Nodes(u)) && Apart(u)
    ensures u.node.data == u.data && u.node.parent == p && u.node.left == Addr(u.l) && u.node.right == Addr(u.r)
    ensures Linked(u.l, u.node, Nodes(u.l)) && Linked(u.r, u.node, Nodes(u.r))
    ensures u.l.T? ==>
      && u.l.node.data == u.l.data && u.l.node.parent == u.node && u.l.node.left == Addr(u.l.l) && u.l.node.right == Addr(u.l.r)
      && Linked(u.l.l, u.l.node, Nodes(u.l.l)) && Linked(u.l.r, u.l.node, Nodes(u.l.r)) && u.l.node != u.node
    ensures u.r.T? ==>
      && u.r.node.data == u.r.data && u.r.node.parent == u.node && u.r.node.left == Addr(u.r.l) && u.r.node.right == Addr(u.r.r)
      && Linked(u.r.l, u.r.node, Nodes(u.r.l)) && Linked(u.r.r, u.r.node, Nodes(u.r.r)) && u.r.node != u.node
    ensures u.l.T? ==> Clear(Nodes(u.r), u.node, u.l.node, null, null)
    ensures u.r.T? ==> Clear(Nodes(u.l), u.node, u.r.node, null, null)
    ensures u.l.T? ==> Clear(Nodes(u.l.l), u.node, u.l.node, null, null) && Clear(Nodes(u.l.r), u.node, u.l.node, null, null)
    ensures u.r.T? ==> Clear(Nodes(u.r.l), u.node, u.r.node, null, null) && Clear(Nodes(u.r.r), u.node, u.r.node, null, null)
  {
    LinkedApart(u, p);
    Open(u, p);
    if u.l.T? { Open(u.l, u.node); }
    if u.r.T? { Open(u.r, u.node); }
  }

  lemma MakePainted(u: Tree, p: Node?, rightChild: bool)
    requires u.T? && Apart(u) && (if rightChild then u.r.T? else u.l.T?)
    requires u.node.data == u.data && !u.node.red && u.node.parent == p && u.node.left == Addr(u.l) && u.node.right == Addr(u.r)
    requires rightChild ==>
      && Linked(u.l, u.node, Nodes(u.l))
      && u.r.node.red && u.r.node.data == u.r.data && u.r.node.parent == u.node
      && u.r.node.left == Addr(u.r.l) && u.r.node.right == Addr(u.r.r)
      && Linked(u.r.l, u.r.node, Nodes(u.r.l)) && Linked(u.r.r, u.r.node, Nodes(u.r.r))
    requires !rightChild ==>
      && Linked(u.r, u.node, Nodes(u.r))
      && u.l.node.red && u.l.node.data == u.l.data && u.l.node.parent == u.node
      && u.l.node.left == Addr(u.l.l) && u.l.node.right == Addr(u.l.r)
      && Linked(u.l.l, u.l.node, Nodes(u.l.l)) && Linked(u.l.r, u.l.node, Nodes(u.l.r))
    ensures Linked(Painted(u, rightChild), p, Nodes(Painted(u, rightChild))) && Nodes(Painted(u, rightChild)) == Nodes(u)
    ensures Addr(Painted(u, rightChild)) == u.node
  {
    assert Apart(u.l) && Apart(u.r);
    hide Linked, Apart;
    if rightChild { Close(Paint(u.r, true), u.node); } else { Close(Paint(u.l, true), u.node); }
    Close(Painted(u, rightChild), p);
  }

  lemma SeparateThree(f: Frame, g: Frame, t: Tree, p: Node?)
    requires Linked(g.Around(f.Around(t)), p, Nodes(g.Around(f.Around(t)))) && g.sib.T?
    ensures var u, v := g.Around(f.Around(t)), f.Around(t);
      && Apart(u) && f.node in Nodes(u) && g.node in Nodes(u) && g.sib.node in Nodes(u)
      && g.node.data == g.data && g.node.parent == p && g.node.left == Addr(u.l) && g.node.right == Addr(u.r)
      && f.node.data == f.data && f.node.parent == g.node && f.node.left == Addr(v.l) && f.node.right == Addr(v.r)
      && g.sib.node.data == g.sib.data && g.sib.node.parent == g.node
      && g.sib.node.left == Addr(g.sib.l) && g.sib.node.right == Addr(g.sib.r)
      && Linked(t, f.node, Nodes(t)) && Linked(f.sib, f.node, Nodes(f.sib))
      && Linked(g.sib.l, g.sib.node, Nodes(g.sib.l)) && Linked(g.sib.r, g.sib.node, Nodes(g.sib.r))
      && Clear(Nodes(t), f.node, g.node, g.sib.node, null) && Clear(Nodes(f.sib), f.node, g.node, g.sib.node, null)
      && Clear(Nodes(g.sib.l), f.node, g.node, g.sib.node, null) && Clear(Nodes(g.sib.r), f.node, g.node, g.sib.node, null)
      && f.node != g.node && f.node != g.sib.node && g.node != g.sib.node
  {
    hide Linked, Apart, Nodes;
    var u := g.Around(f.Around(t));
    LinkedApart(u, p);
    Open(u, p);
    Open(f.Around(t), g.node);
    Open(g.sib, g.node);
  }

  lemma MakeRecoloured(f: Frame, g: Frame, t: Tree, p: Node?)
    requires g.sib.T? && Apart(g.Around(f.Around(t)))
    requires var u, v := g.Around(f.Around(t)), f.Around(t);
      && g.node.red && g.node.data == g.data && g.node.parent == p && g.node.left == Addr(u.l) && g.node.right == Addr(u.r)
      && !f.node.red && f.node.data == f.data && f.node.parent == g.node && f.node.left == Addr(v.l) && f.node.right == Addr(v.r)
      && !g.sib.node.red && g.sib.node.data == g.sib.data && g.sib.node.parent == g.node
      && g.sib.node.left == Addr(g.sib.l) && g.sib.node.right == Addr(g.sib.r)
      && Linked(t, f.node, Nodes(t)) && Linked(f.sib, f.node, Nodes(f.sib))
      && Linked(g.sib.l, g.sib.node, Nodes(g.sib.l)) && Linked(g.sib.r, g.sib.node, Nodes(g.sib.r))
    ensures Linked(V.Recoloured(f, g, t), p, Nodes(V.Recoloured(f, g, t)))
    ensures Nodes(V.Recoloured(f, g, t)) == Nodes(g.Around(f.Around(t))) && Addr(V.Recoloured(f, g, t)) == g.node
  {
    var u := g.Around(f.Around(t));
    assert Apart(f.Around(t)) && Apart(g.sib);
    hide Linked, Apart;
    Close(Paint(g.sib, false), g.node);
    Close(f.(red := false).Around(t), g.node);
    Close(V.Recoloured(f, g, t), p);
  }

  /** The links after a left rotation. */
  lemma MakeRotatedLeft(t: Tree, p: Node?)
    requires t.T? && t.r.T?
    requires var x, y, a, b, d := t.node, t.r.node, t.l, t.r.l, t.r.r;
      && x.red == t.red && x.data == t.data && x.parent == y && x.left == Addr(a) && x.right == Addr(b)
      && y.red == t.r.red && y.data == t.r.data && y.parent == p && y.left == x && y.right == Addr(d)
      && x != y && Linked(a, x, Nodes(a)) && Linked(d, y, Nodes(d))
      && (b.T? ==>
            && b.node.red == b.red && b.node.data == b.data && b.node.parent == x
            && b.node.left == Addr(b.l) && b.node.right == Addr(b.r)
            && Linked(b.l, b.node, Nodes(b.l)) && Linked(b.r, b.node, Nodes(b.r)))
      && Apart(t)
    ensures Linked(V.RotateLeft(t), p, Nodes(V.RotateLeft(t))) && Nodes(V.RotateLeft(t)) == Nodes(t)
    ensures Addr(V.RotateLeft(t)) == t.r.node
  {
    var x, y, a, b, d := t.node, t.r.node, t.l, t.r.l, t.r.r;
    assert Apart(t.r) && Apart(b);
    hide Linked, Apart;
    if b.T? { Close(b, x); } else { NilLinked(x); }
    Close(T(x, t.red, t.data, a, b), y);
    Close(V.RotateLeft(t), p);
    RotatedNodes(t);
  }

  /** The links after a right rotation. */
  lemma MakeRotatedRight(t: Tree, p: Node?)
    requires t.T? && t.l.T?
    requires var x, y, a, b, d := t.node, t.l.node, t.r, t.l.r, t.l.l;
      && x.red == t.red && x.data == t.data && x.parent == y && x.right == Addr(a) && x.left == Addr(b)
      && y.red == t.l.red && y.data == t.l.data && y.parent == p && y.right == x && y.left == Addr(d)
      && x != y && Linked(a, x, Nodes(a)) && Linked(d, y, Nodes(d))
      && (b.T? ==>
            && b.node.red == b.red && b.node.data == b.data && b.node.parent == x
            && b.node.left == Addr(b.l) && b.node.right == Addr(b.r)
            && Linked(b.l, b.node, Nodes(b.l)) && Linked(b.r, b.node, Nodes(b.r)))
      && Apart(t)
    ensures Linked(V.RotateRight(t), p, Nodes(V.RotateRight(t))) && Nodes(V.RotateRight(t)) == Nodes(t)
    ensures Addr(V.RotateRight(t)) == t.l.node
  {
    var x, y, a, b, d := t.node, t.l.node, t.r, t.l.r, t.l.l;
    assert Apart(t.l) && Apart(b);
    hide Linked, Apart;
    if b.T? { Close(b, x); } else { NilLinked(x); }
    Close(T(x, t.red, t.data, b, a), y);
    Close(V.RotateRight(t), p);
    RotatedNodes(t);
  }

  /** No object occurs twice in the tree. */
  ghost predicate Apart(t: Tree) {
    t.T? ==>
      && t.node !in Nodes(t.l) && t.node !in Nodes(t.r) && Nodes(t.l) !! Nodes(t.r)
      && Apart(t.l) && Apart(t.r)
  }

  lemma {:induction false} LinkedApart(t: Tree, p: Node?)
    requires Linked(t, p, Nodes(t))
    ensures Apart(t)
  {
    if t.T? {
      LinkedApart(t.l, t.node);
      LinkedApart(t.r, t.node);
    }
  }

  lemma {:induction false} Exists(t: Tree)
    ensures forall o | o in Nodes(t) :: allocated(o)
  {
    if t.T? {
      Exists(t.l);
      Exists(t.r);
    }
  }

  /** No object in s is one of those a rotation writes to. */
  ghost predicate Clear(s: set<Node>, x: Node?, y: Node?, z: Node?, p: Node?) {
    forall o | o in s :: o != x && o != y && o != z && o != p
  }

  lemma OpenHeld(c: Path, t: Tree, root: Node?)
    requires Held(c, t, root, All(c, t))
    ensures LinkedPath(c, Addr(t), root, PathNodes(c)) && Linked(t, Top(c), Nodes(t))
    ensures |c| > 0 ==> c[0].node in PathNodes(c) && c[0].node !in Nodes(t)
    ensures forall o | o in Nodes(t) :: o !in PathNodes(c) && o != Top(c)
    ensures forall o | o in PathNodes(c) :: o !in Nodes(t)
  {
  }

  lemma CloseHeld(c: Path, t: Tree, u: Tree, root: Node?)
    requires LinkedPath(c, Addr(u), root, PathNodes(c)) && Linked(u, Top(c), Nodes(u))
    requires Nodes(u) == Nodes(t) && forall o | o in Nodes(t) :: o !in PathNodes(c)
    ensures Held(c, u, root, All(c, t)) && All(c, u) == All(c, t)
  {
  }

  lemma RotatedNodes(t: Tree)
    ensures Nodes(V.RotateLeft(t)) == Nodes(t) && Nodes(V.RotateRight(t)) == Nodes(t)
  {
  }

  lemma OneLevel(t: Tree)
    requires Apart(t)
    ensures t.T? ==>
      && Nodes(t) == {t.node} + Nodes(t.l) + Nodes(t.r) && t.node !in Nodes(t.l) && t.node !in Nodes(t.r)
      && Nodes(t.l) !! Nodes(t.r) && Apart(t.l) && Apart(t.r)
    ensures t.Nil? ==> Nodes(t) == {}
  {
  }

  lemma PartsRight(t: Tree, p: Node?)
    requires Apart(t) && t.T? && t.r.T? && (p != null ==> p !in Nodes(t))
    ensures var x, y, a, b, d := t.node, t.r.node, t.l, t.r.l, t.r.r;
      && x != y && x in Nodes(t) && y in Nodes(t) && x != p && y != p && Addr(b) != x && Addr(b) != y
      && Clear(Nodes(a), x, y, Addr(b), p) && Clear(Nodes(d), x, y, Addr(b), p)
      && (b.T? ==>
            && b.node in Nodes(t) && b.node != p
            && Clear(Nodes(b.l), x, y, b.node, p) && Clear(Nodes(b.r), x, y, b.node, p))
      && Nodes(a) <= Nodes(t) && Nodes(d) <= Nodes(t) && (b.T? ==> Nodes(b.l) <= Nodes(t) && Nodes(b.r) <= Nodes(t))
  {
    hide Nodes, Apart;
    OneLevel(t);
    OneLevel(t.r);
    OneLevel(t.r.l);
  }

  /** The parts of a tree that is rotated left, and how far they are from what the rotation writes to. */
  lemma {:induction false} SeparateRight(t: Tree, p: Node?)
    requires Linked(t, p, Nodes(t)) && t.T? && t.r.T? && (p != null ==> p !in Nodes(t))
    ensures var x, y, a, b, d := t.node, t.r.node, t.l, t.r.l, t.r.r;
      && x.red == t.red && x.data == t.data && x.parent == p && x.left == Addr(a) && x.right == y
      && y.red == t.r.red && y.data == t.r.data && y.left == Addr(b) && y.right == Addr(d)
      && x != y && x in Nodes(t) && y in Nodes(t) && x != p && y != p && Addr(b) != x && Addr(b) != y
      && Linked(a, x, Nodes(a)) && Linked(d, y, Nodes(d)) && Apart(t)
      && Clear(Nodes(a), x, y, Addr(b), p) && Clear(Nodes(d), x, y, Addr(b), p)
      && (b.T? ==>
            && b.node in Nodes(t) && b.node != p
            && b.node.red == b.red && b.node.data == b.data
            && b.node.left == Addr(b.l) && b.node.right == Addr(b.r)
            && Linked(b.l, b.node, Nodes(b.l)) && Linked(b.r, b.node, Nodes(b.r))
            && Clear(Nodes(b.l), x, y, b.node, p) && Clear(Nodes(b.r), x, y, b.node, p))
    ensures forall o | o in Nodes(t) :: allocated(o)
    ensures forall o | o in Nodes(t.l) :: allocated(o)
    ensures forall o | o in Nodes(t.r.r) :: allocated(o)
    ensures t.r.l.T? ==> forall o | o in Nodes(t.r.l.l) :: allocated(o)
    ensures t.r.l.T? ==> forall o | o in Nodes(t.r.l.r) :: allocated(o)
  {
    hide Linked, Nodes, Apart, Clear;
    var b := t.r.l;
    Exists(t);
    LinkedApart(t, p);
    PartsRight(t, p);
    Open(t, p);
    Open(t.r, t.node);
    if b.T? { Open(b, t.r.node); }
  }

  lemma PartsLeft(t: Tree, p: Node?)
    requires Apart(t) && t.T? && t.l.T? && (p != null ==> p !in Nodes(t))
    ensures var x, y, a, b, d := t.node, t.l.node, t.r, t.l.r, t.l.l;
      && x != y && x in Nodes(t) && y in Nodes(t) && x != p && y != p && Addr(b) != x && Addr(b) != y
      && Clear(Nodes(a), x, y, Addr(b), p) && Clear(Nodes(d), x, y, Addr(b), p)
      && (b.T? ==>
            && b.node in Nodes(t) && b.node != p
            && Clear(Nodes(b.l), x, y, b.node, p) && Clear(Nodes(b.r), x, y, b.node, p))
      && Nodes(a) <= Nodes(t) && Nodes(d) <= Nodes(t) && (b.T? ==> Nodes(b.l) <= Nodes(t) && Nodes(b.r) <= Nodes(t))
  {
    hide Nodes, Apart;
    OneLevel(t);
    OneLevel(t.l);
    OneLevel(t.l.r);
  }

  lemma {:induction false} SeparateLeft(t: Tree, p: Node?)
    requires Linked(t, p, Nodes(t)) && t.T? && t.l.T? && (p != null ==> p !in Nodes(t))
    ensures var x, y, a, b, d := t.node, t.l.node, t.r, t.l.r, t.l.l;
      && x.red == t.red && x.data == t.data && x.parent == p && x.right == Addr(a) && x.left == y
      && y.red == t.l.red && y.data == t.l.data && y.right == Addr(b) && y.left == Addr(d)
      && x != y && x in Nodes(t) && y in Nodes(t) && x != p && y != p && Addr(b) != x && Addr(b) != y
      && Linked(a, x, Nodes(a)) && Linked(d, y, Nodes(d)) && Apart(t)
      && Clear(Nodes(a), x, y, Addr(b), p) && Clear(Nodes(d), x, y, Addr(b), p)
      && (b.T? ==>
            && b.node in Nodes(t) && b.node != p
            && b.node.red == b.red && b.node.data == b.data
            && b.node.left == Addr(b.l) && b.node.right == Addr(b.r)
            && Linked(b.l, b.node, Nodes(b.l)) && Linked(b.r, b.node, Nodes(b.r))
            && Clear(Nodes(b.l), x, y, b.node, p) && Clear(Nodes(b.r), x, y, b.node, p))
    ensures forall o | o in Nodes(t) :: allocated(o)
    ensures forall o | o in Nodes(t.r) :: allocated(o)
    ensures forall o | o in Nodes(t.l.l) :: allocated(o)
    ensures t.l.r.T? ==> forall o | o in Nodes(t.l.r.l) :: allocated(o)
    ensures t.l.r.T? ==> forall o | o in Nodes(t.l.r.r) :: allocated(o)
  {
    hide Linked, Nodes, Apart, Clear;
    var b := t.l.r;
    Exists(t);
    LinkedApart(t, p);
    PartsLeft(t, p);
    Open(t, p);
    Open(t.l, t.node);
    if b.T? { Open(b, t.l.node); }
  }
}

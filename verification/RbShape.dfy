/**
  Red-black trees with a path to the node that insertion repairs: what each repair step does to
  the tree, and the potential that pays for it.  A tree value names the node objects it is made of.
 */
module RbShape {

  class Node {
    var data: int
    var red: bool
    var parent: Node?
    var left: Node?
    var right: Node?

    /** A new node is red and linked to nothing. */
    constructor (data: int)
      ensures this.data == data && red && parent == left == right == null
    {
      this.data, red := data, true;
      parent, left, right := null, null, null;
    }
  }

  datatype Tree = Nil | T(node: Node, red: bool, data: int, l: Tree, r: Tree) {
    predicate IsRed() { T? && red }
  }

  /** One step of the path to the root: the node, on which side the hole is, and its other child. */
  datatype Frame = F(node: Node, red: bool, data: int, toLeft: bool, sib: Tree) {
    function Around(t: Tree): Tree {
      if toLeft then T(node, red, data, t, sib) else T(node, red, data, sib, t)
    }
  }

  /** The path upwards, nearest frame first. */
  type Path = seq<Frame>

  function Plug(c: Path, t: Tree): Tree {
    if |c| == 0 then t else Plug(c[1..], c[0].Around(t))
  }

  // ---------- Keys, balance and potential ----------

  function InOrder(t: Tree): seq<int> {
    if t.Nil? then [] else InOrder(t.l) + [t.data] + InOrder(t.r)
  }

  function BlackHeight(t: Tree): nat {
    if t.Nil? then 0 else BlackHeight(t.l) + if t.red then 0 else 1
  }

  /** Equal black heights everywhere and no red node with a red child. */
  predicate Good(t: Tree) {
    t.T? ==>
      && Good(t.l) && Good(t.r) && BlackHeight(t.l) == BlackHeight(t.r)
      && (t.red ==> !t.l.IsRed() && !t.r.IsRed())
  }

  /** The number of black nodes with two red children. */
  function Potential(t: Tree): nat {
    if t.Nil? then 0
    else Potential(t.l) + Potential(t.r) + if !t.red && t.l.IsRed() && t.r.IsRed() then 1 else 0
  }

  function Size(t: Tree): nat {
    if t.Nil? then 0 else 1 + Size(t.l) + Size(t.r)
  }

  /** Around a hole of black height n the tree is good, whatever the colour of what is put there. */
  predicate GoodPath(c: Path, n: nat) {
    |c| == 0 || (
      && Good(c[0].sib) && BlackHeight(c[0].sib) == n
      && (c[0].red ==> !c[0].sib.IsRed() && |c| > 1 && !c[1].red)
      && GoodPath(c[1..], n + if c[0].red then 0 else 1))
  }

  function PathPotential(c: Path, red: bool): nat {
    if |c| == 0 then 0
    else
      Potential(c[0].sib) + PathPotential(c[1..], c[0].red)
      + if !c[0].red && red && c[0].sib.IsRed() then 1 else 0
  }

  lemma {:induction false} PotentialOfPlug(c: Path, t: Tree)
    ensures Potential(Plug(c, t)) == Potential(t) + PathPotential(c, t.IsRed())
  {
    if |c| > 0 { PotentialOfPlug(c[1..], c[0].Around(t)); }
  }

  lemma {:induction false} SizeOfPlug(c: Path, t: Tree, u: Tree)
    requires Size(t) == Size(u)
    ensures Size(Plug(c, t)) == Size(Plug(c, u))
  {
    if |c| > 0 { SizeOfPlug(c[1..], c[0].Around(t), c[0].Around(u)); }
  }

  lemma {:induction false} KeysOfPlug(c: Path, t: Tree, u: Tree)
    requires InOrder(t) == InOrder(u)
    ensures InOrder(Plug(c, t)) == InOrder(Plug(c, u))
  {
    if |c| > 0 { KeysOfPlug(c[1..], c[0].Around(t), c[0].Around(u)); }
  }

  lemma {:induction false} GoodPlug(c: Path, t: Tree)
    requires GoodPath(c, BlackHeight(t)) && Good(t) && !(t.IsRed() && |c| > 0 && c[0].red)
    ensures Good(Plug(c, t))
    ensures |c| > 0 ==> Plug(c, t).T? && (c[|c| - 1].red <==> Plug(c, t).red)
  {
    if |c| > 0 {
      GoodPlug(c[1..], c[0].Around(t));
      if |c| == 1 { assert Plug(c, t) == c[0].Around(t); }
    }
  }

  lemma {:induction false} TopIsBlack(c: Path, n: nat)
    requires GoodPath(c, n) && |c| > 0
    ensures !c[|c| - 1].red
  {
    if |c| > 1 { TopIsBlack(c[1..], n + if c[0].red then 0 else 1); }
  }

  // ---------- The repair steps ----------

  function Paint(t: Tree, red: bool): Tree {
    if t.T? then t.(red := red) else t
  }

  /** The grandparent's tree after its colour went down to its two children. */
  function Recoloured(f: Frame, g: Frame, t: Tree): Tree {
    g.(red := true, sib := Paint(g.sib, false)).Around(f.(red := false).Around(t))
  }

  function RotateLeft(t: Tree): Tree {
    if t.T? && t.r.T? then T(t.r.node, t.r.red, t.r.data, T(t.node, t.red, t.data, t.l, t.r.l), t.r.r) else t
  }

  function RotateRight(t: Tree): Tree {
    if t.T? && t.l.T? then T(t.l.node, t.l.red, t.l.data, t.l.l, T(t.node, t.red, t.data, t.l.r, t.r)) else t
  }

  /** The grandparent's tree after the one or two rotations of the last step. */
  function Rotated(f: Frame, g: Frame, t: Tree): Tree {
    if g.toLeft then
      if f.toLeft then
        var u := RotateRight(g.Around(f.Around(t)));
        if u.T? then T(u.node, false, u.data, u.l, Paint(u.r, true)) else u
      else
        var u := RotateRight(g.Around(RotateLeft(f.Around(t))));
        if u.T? then T(u.node, false, u.data, u.l, Paint(u.r, true)) else u
    else
      if f.toLeft then
        var u := RotateLeft(g.Around(RotateRight(f.Around(t))));
        if u.T? then T(u.node, false, u.data, Paint(u.l, true), u.r) else u
      else
        var u := RotateLeft(g.Around(f.Around(t)));
        if u.T? then T(u.node, false, u.data, Paint(u.l, true), u.r) else u
  }

  /** A red node under a red parent: the only place where the tree is not good. */
  predicate Broken(c: Path, t: Tree) {
    t.IsRed() && Good(t) && GoodPath(c, BlackHeight(t)) && |c| > 0 && c[0].red
  }

  predicate Settled(c: Path, t: Tree) {
    Good(t) && GoodPath(c, BlackHeight(t)) && !(t.IsRed() && |c| > 0 && c[0].red)
  }

  lemma RotationsKeepKeys(t: Tree)
    ensures InOrder(RotateLeft(t)) == InOrder(t) && Size(RotateLeft(t)) == Size(t)
    ensures InOrder(RotateRight(t)) == InOrder(t) && Size(RotateRight(t)) == Size(t)
  {
    if t.T? {
      assert InOrder(t) == InOrder(t.l) + ([t.data] + InOrder(t.r));
      if t.r.T? {
        assert InOrder(t.r) == InOrder(t.r.l) + ([t.r.data] + InOrder(t.r.r));
        var n := RotateLeft(t).l;
        assert InOrder(n) == InOrder(t.l) + ([t.data] + InOrder(t.r.l));
      }
      if t.l.T? {
        var n := RotateRight(t).r;
        assert InOrder(n) == InOrder(t.l.r) + ([t.data] + InOrder(t.r));
      }
    }
  }

  /** With a red uncle the violation moves up two levels and the potential pays for the step. */
  lemma RecolouringMovesUp(c: Path, t: Tree)
    requires Broken(c, t) && c[1].sib.IsRed()
    ensures |c| > 1
    ensures var u := Recoloured(c[0], c[1], t);
      && u.IsRed() && (Broken(c[2..], u) || Settled(c[2..], u))
      && InOrder(u) == InOrder(c[1].Around(c[0].Around(t))) && Size(u) == Size(c[1].Around(c[0].Around(t)))
      && Potential(u) + 1 == Potential(c[1].Around(c[0].Around(t)))
  {
    var f, g := c[0], c[1];
    assert GoodPath(c[1..], BlackHeight(t)) && c[1..][0] == g && c[1..][1..] == c[2..];
    var p := f.(red := false).Around(t);
    assert Good(p) && BlackHeight(p) == BlackHeight(t) + 1;
    var uncle := Paint(g.sib, false);
    assert Good(uncle) && BlackHeight(uncle) == BlackHeight(g.sib) + 1;
    assert InOrder(uncle) == InOrder(g.sib) && Potential(uncle) == Potential(g.sib) && Size(uncle) == Size(g.sib);
    assert Potential(p) == Potential(f.Around(t));
  }

  /** The four forms of the last step: two red children under a black node. */
  lemma RotatedForm(f: Frame, g: Frame, t: Tree)
    requires t.T?
    ensures var u := Rotated(f, g, t);
      u == if g.toLeft then
             if f.toLeft then T(f.node, false, f.data, t, T(g.node, true, g.data, f.sib, g.sib))
             else T(t.node, false, t.data, T(f.node, f.red, f.data, f.sib, t.l), T(g.node, true, g.data, t.r, g.sib))
           else
             if f.toLeft then T(t.node, false, t.data, T(g.node, true, g.data, g.sib, t.l), T(f.node, f.red, f.data, t.r, f.sib))
             else T(f.node, false, f.data, T(g.node, true, g.data, g.sib, f.sib), t)
  {
  }

  lemma AroundKeys(g: Frame, a: Tree, b: Tree)
    requires InOrder(a) == InOrder(b) && Size(a) == Size(b)
    ensures InOrder(g.Around(a)) == InOrder(g.Around(b)) && Size(g.Around(a)) == Size(g.Around(b))
  {
  }

  lemma PaintKeys(u: Tree)
    requires u.T?
    ensures InOrder(T(u.node, false, u.data, u.l, Paint(u.r, true))) == InOrder(u)
    ensures InOrder(T(u.node, false, u.data, Paint(u.l, true), u.r)) == InOrder(u)
    ensures Size(T(u.node, false, u.data, u.l, Paint(u.r, true))) == Size(u)
    ensures Size(T(u.node, false, u.data, Paint(u.l, true), u.r)) == Size(u)
  {
    assert InOrder(Paint(u.l, true)) == InOrder(u.l) && InOrder(Paint(u.r, true)) == InOrder(u.r);
    assert Size(Paint(u.l, true)) == Size(u.l) && Size(Paint(u.r, true)) == Size(u.r);
  }

  lemma RotatedKeys(f: Frame, g: Frame, t: Tree)
    requires t.T?
    ensures InOrder(Rotated(f, g, t)) == InOrder(g.Around(f.Around(t)))
    ensures Size(Rotated(f, g, t)) == Size(g.Around(f.Around(t)))
  {
    var p := f.Around(t);
    var q := if g.toLeft == f.toLeft then p else if g.toLeft then RotateLeft(p) else RotateRight(p);
    var u := if g.toLeft then RotateRight(g.Around(q)) else RotateLeft(g.Around(q));
    assert u.T?;
    assert Rotated(f, g, t) == if g.toLeft then T(u.node, false, u.data, u.l, Paint(u.r, true))
                               else T(u.node, false, u.data, Paint(u.l, true), u.r);
    hide *;
    RotationsKeepKeys(p);
    RotationsKeepKeys(g.Around(q));
    AroundKeys(g, p, q);
    PaintKeys(u);
  }

  /** A black node with two good red children of the right height settles any path. */
  lemma TwoRedChildren(c: Path, u: Tree, n: nat)
    requires u.T? && !u.red && u.l.IsRed() && u.r.IsRed() && Good(u.l) && Good(u.r)
    requires BlackHeight(u.l) == BlackHeight(u.r) == n && GoodPath(c, n + 1)
    ensures Settled(c, u)
  {
  }

  /** With a black uncle one or two rotations settle the tree. */
  lemma RotationSettles(c: Path, t: Tree)
    requires Broken(c, t) && !c[1].sib.IsRed()
    ensures |c| > 1
    ensures var u := Rotated(c[0], c[1], t);
      && u.T? && !u.red && Settled(c[2..], u)
      && InOrder(u) == InOrder(c[1].Around(c[0].Around(t))) && Size(u) == Size(c[1].Around(c[0].Around(t)))
      && Potential(u) <= Potential(c[1].Around(c[0].Around(t))) + 1
  {
    var f, g := c[0], c[1];
    var n := BlackHeight(t);
    assert GoodPath(c[1..], n) && c[1..][0] == g && c[1..][1..] == c[2..];
    RotatedKeys(f, g, t);
    RotatedForm(f, g, t);
    hide Rotated, InOrder, Size;
    var u := Rotated(f, g, t);
    assert Good(u.l) && Good(u.r) && BlackHeight(u.l) == BlackHeight(u.r) == n;
    assert Potential(u) == 1 + Potential(u.l) + Potential(u.r);
    hide GoodPath, Settled;
    assert GoodPath(c[2..], n + 1);
    TwoRedChildren(c[2..], u, n);
  }

  // ---------- How much a repair does ----------

  /** A red node at the end of the path has a red parent, and above it a grandparent. */
  predicate Clashes(c: Path) { |c| > 1 && c[0].red }

  /** The repair steps for a red node at the end of the path: one a clash, going on above a red uncle. */
  function Steps(c: Path): nat {
    if !Clashes(c) then 0 else if c[1].sib.IsRed() then 1 + Steps(c[2..]) else 1
  }

  /** Its rotations: none without a last step, one if the node and its parent hang on the same side, else two. */
  function Rotations(c: Path): nat {
    if !Clashes(c) then 0 else if c[1].sib.IsRed() then Rotations(c[2..])
    else if c[0].toLeft == c[1].toLeft then 1 else 2
  }

  /** Its changes of colour: three a recolouring, two for a last step. */
  function Colours(c: Path): nat {
    if !Clashes(c) then 0 else if c[1].sib.IsRed() then 3 + Colours(c[2..]) else 2
  }

  /** The whole tree when the repair from a red node t at the end of the path has ended. */
  function Repaired(c: Path, t: Tree): Tree
    decreases |c|
  {
    if !t.IsRed() || !Clashes(c) then Plug(c, t)
    else if c[1].sib.IsRed() then Repaired(c[2..], Recoloured(c[0], c[1], t))
    else Plug(c[2..], Rotated(c[0], c[1], t))
  }

  /** The first k pairs of the path are a red parent below the sibling of a red uncle. */
  predicate RecolouredTo(c: Path, k: nat) {
    2 * k <= |c| && forall i | 0 <= i < k :: c[2 * i].red && c[2 * i + 1].sib.IsRed()
  }

  /** The amounts read off the path: k pairs are recoloured, and a clash above them ends the repair. */
  lemma {:induction false} WorkIs(c: Path, k: nat)
    requires RecolouredTo(c, k) && !(Clashes(c[2 * k..]) && c[2 * k + 1].sib.IsRed())
    ensures var last := Clashes(c[2 * k..]);
      && Steps(c) == k + (if last then 1 else 0) && Colours(c) == 3 * k + (if last then 2 else 0)
      && Rotations(c) == if !last then 0 else if c[2 * k].toLeft == c[2 * k + 1].toLeft then 1 else 2
    decreases k
  {
    if k > 0 {
      var above := c[2..];
      assert c[0].red && c[1].sib.IsRed() by { assert c[2 * 0].red && c[2 * 0 + 1].sib.IsRed(); }
      forall i | 0 <= i < k - 1 ensures above[2 * i].red && above[2 * i + 1].sib.IsRed() {
        assert c[2 * (i + 1)].red && c[2 * (i + 1) + 1].sib.IsRed();
      }
      assert above[2 * (k - 1)..] == c[2 * k..];
      WorkIs(above, k - 1);
    } else {
      assert c[0..] == c;
    }
  }

  /** So many steps, rotations and colour changes have been made, and the rest of the repair is left. */
  predicate Counted(c0: Path, t0: Tree, c: Path, t: Tree, steps: int, rotations: int, colours: int) {
    && steps + (if t.IsRed() then Steps(c) else 0) == Steps(c0)
    && rotations + (if t.IsRed() then Rotations(c) else 0) == Rotations(c0)
    && colours + (if t.IsRed() then Colours(c) else 0) == Colours(c0)
    && Repaired(c, t) == Repaired(c0, t0)
  }

  lemma NothingCounted(c: Path, t: Tree)
    requires t.IsRed()
    ensures Counted(c, t, c, t, 0, 0, 0)
  {
  }

  lemma UpIsCounted(c0: Path, t0: Tree, c: Path, t: Tree, steps: int, rotations: int, colours: int)
    requires |c| > 1 && Broken(c, t) && c[1].sib.IsRed() && Recoloured(c[0], c[1], t).IsRed()
    requires Counted(c0, t0, c, t, steps, rotations, colours)
    ensures Counted(c0, t0, c[2..], Recoloured(c[0], c[1], t), steps + 1, rotations, colours + 3)
  {
    hide Recoloured, Rotated, Plug;
  }

  lemma LastIsCounted(c0: Path, t0: Tree, c: Path, t: Tree, steps: int, rotations: int, colours: int)
    requires |c| > 1 && Broken(c, t) && !c[1].sib.IsRed() && !Rotated(c[0], c[1], t).IsRed()
    requires Counted(c0, t0, c, t, steps, rotations, colours)
    ensures Counted(c0, t0, c[2..], Rotated(c[0], c[1], t), steps + 1, rotations + (if c[0].toLeft == c[1].toLeft then 1 else 2), colours + 2)
  {
    hide Recoloured, Rotated, Plug;
  }

  lemma StepIsCounted(c0: Path, t0: Tree, c: Path, t: Tree, u: Tree, steps: int, rotations: int, colours: int)
    requires |c| > 1 && Broken(c, t) && Counted(c0, t0, c, t, steps, rotations, colours)
    requires u == if c[1].sib.IsRed() then Recoloured(c[0], c[1], t) else Rotated(c[0], c[1], t)
    requires u.IsRed() <==> c[1].sib.IsRed()
    ensures Counted(c0, t0, c[2..], u, steps + 1,
                    rotations + (if c[1].sib.IsRed() then 0 else if c[0].toLeft == c[1].toLeft then 1 else 2),
                    colours + (if c[1].sib.IsRed() then 3 else 2))
  {
    hide Broken, Counted, Recoloured, Rotated;
    if c[1].sib.IsRed() {
      UpIsCounted(c0, t0, c, t, steps, rotations, colours);
    } else {
      LastIsCounted(c0, t0, c, t, steps, rotations, colours);
    }
  }

  lemma AllCounted(c0: Path, t0: Tree, c: Path, t: Tree, steps: int, rotations: int, colours: int)
    requires Settled(c, t) && Counted(c0, t0, c, t, steps, rotations, colours)
    ensures steps == Steps(c0) && rotations == Rotations(c0) && colours == Colours(c0) && Plug(c, t) == Repaired(c0, t0)
  {
    hide Recoloured, Rotated, Plug;
  }

  // ---------- Placing a new key ----------

  /** The path that BSTInsert takes to the empty place for a key. */
  function PathTo(t: Tree, key: int, above: Path): Path {
    if t.Nil? then above
    else if key < t.data then PathTo(t.l, key, [F(t.node, t.red, t.data, true, t.r)] + above)
    else PathTo(t.r, key, [F(t.node, t.red, t.data, false, t.l)] + above)
  }

  predicate Ascending(s: seq<int>) {
    forall i, j | 0 <= i < j < |s| :: s[i] < s[j]
  }

  /** BSTInsert: the tree with a red leaf for the key. */
  function WithLeaf(t: Tree, n: Node, key: int): Tree {
    if t.Nil? then T(n, true, key, Nil, Nil)
    else if key < t.data then t.(l := WithLeaf(t.l, n, key))
    else if key > t.data then t.(r := WithLeaf(t.r, n, key))
    else t
  }

  /** The search for the key ends at a node that has it. */
  predicate Meets(t: Tree, key: int) {
    t.T? && (key == t.data || (key < t.data && Meets(t.l, key)) || (key > t.data && Meets(t.r, key)))
  }

  lemma InParts(t: Tree, key: int)
    requires t.T?
    ensures InOrder(t) == InOrder(t.l) + [t.data] + InOrder(t.r)
    ensures key in InOrder(t) <==> key in InOrder(t.l) || key == t.data || key in InOrder(t.r)
  {
  }

  /** Then no node is hung, and in an ordered tree that is so exactly for the keys it holds. */
  lemma {:induction false} MetKeyIsDropped(t: Tree, n: Node, key: int)
    ensures Meets(t, key) ==> WithLeaf(t, n, key) == t
    ensures Meets(t, key) ==> key in InOrder(t)
    ensures Ascending(InOrder(t)) && key in InOrder(t) ==> Meets(t, key)
  {
    if t.T? {
      MetKeyIsDropped(t.l, n, key);
      MetKeyIsDropped(t.r, n, key);
      InParts(t, key);
      hide InOrder, Ascending;
      if Ascending(InOrder(t)) { AscendingSplits(InOrder(t.l), t.data, InOrder(t.r)); }
    }
  }

  lemma {:induction false} PathPlugs(t: Tree, key: int, above: Path, n: Node)
    requires key !in InOrder(t)
    ensures Plug(PathTo(t, key, above), T(n, true, key, Nil, Nil)) == Plug(above, WithLeaf(t, n, key))
    ensures Plug(PathTo(t, key, above), Nil) == Plug(above, t)
  {
    if t.T? {
      assert t.data in InOrder(t);
      assert (forall x | x in InOrder(t.l) :: x in InOrder(t)) && forall x | x in InOrder(t.r) :: x in InOrder(t);
      var f := if key < t.data then F(t.node, t.red, t.data, true, t.r) else F(t.node, t.red, t.data, false, t.l);
      PathPlugs(if key < t.data then t.l else t.r, key, [f] + above, n);
      assert ([f] + above)[1..] == above;
    }
  }

  lemma AscendingSplits(a: seq<int>, x: int, b: seq<int>)
    requires Ascending(a + [x] + b)
    ensures Ascending(a) && Ascending(b) && (forall y | y in a :: y < x) && forall y | y in b :: x < y
  {
    var s := a + [x] + b;
    assert s[|a|] == x;
    forall i | 0 <= i < |a| ensures a[i] < x { assert s[i] == a[i] && s[i] < s[|a|]; }
    forall i | 0 <= i < |b| ensures x < b[i] { assert s[|a| + 1 + i] == b[i] && s[|a|] < s[|a| + 1 + i]; }
    forall i, j | 0 <= i < j < |a| ensures a[i] < a[j] { assert s[i] < s[j]; }
    forall i, j | 0 <= i < j < |b| ensures b[i] < b[j] { assert s[|a| + 1 + i] < s[|a| + 1 + j]; }
  }

  lemma AscendingJoins(a: seq<int>, x: int, b: seq<int>)
    requires Ascending(a) && Ascending(b) && (forall y | y in a :: y < x) && forall y | y in b :: x < y
    ensures Ascending(a + [x] + b)
  {
    var s := a + [x] + b;
    forall i, j | 0 <= i < j < |s| ensures s[i] < s[j] {
      if i < |a| { assert a[i] in a; }
      if j > |a| { assert b[j - |a| - 1] in b; }
    }
  }

  /** The new leaf adds its key and keeps the keys in ascending order. */
  lemma {:induction false} LeafKeepsOrder(t: Tree, n: Node, key: int)
    requires Ascending(InOrder(t)) && key !in InOrder(t)
    ensures var u := WithLeaf(t, n, key);
      && Ascending(InOrder(u)) && (forall x :: x in InOrder(u) <==> x in InOrder(t) || x == key)
      && Size(u) == Size(t) + 1
  {
    if t.T? {
      AscendingSplits(InOrder(t.l), t.data, InOrder(t.r));
      if key < t.data {
        LeafKeepsOrder(t.l, n, key);
        AscendingJoins(InOrder(WithLeaf(t.l, n, key)), t.data, InOrder(t.r));
      } else {
        assert t.data in InOrder(t);
        LeafKeepsOrder(t.r, n, key);
        AscendingJoins(InOrder(t.l), t.data, InOrder(WithLeaf(t.r, n, key)));
      }
    }
  }

  lemma {:induction false} PathIsGood(t: Tree, key: int, above: Path)
    requires Good(t) && GoodPath(above, BlackHeight(t)) && !(t.IsRed() && |above| > 0 && above[0].red)
    requires |above| == 0 ==> !t.IsRed()
    ensures GoodPath(PathTo(t, key, above), 0)
  {
    if t.T? {
      var f := if key < t.data then F(t.node, t.red, t.data, true, t.r) else F(t.node, t.red, t.data, false, t.l);
      assert ([f] + above)[1..] == above;
      PathIsGood(if key < t.data then t.l else t.r, key, [f] + above);
    }
  }

  // ---------- What a step does to the whole tree ----------

  lemma PlugTwo(c: Path, t: Tree)
    requires |c| > 1
    ensures Plug(c, t) == Plug(c[2..], c[1].Around(c[0].Around(t)))
  {
    assert c[1..][1..] == c[2..] && c[1..][0] == c[1];
  }

  lemma HoleColour(c: Path)
    ensures PathPotential(c, false) <= PathPotential(c, true) <= PathPotential(c, false) + 1
    ensures |c| > 0 && c[0].red ==> PathPotential(c, true) == PathPotential(c, false)
  {
  }

  /** Moving the violation up costs one repair step and lowers the potential by one. */
  lemma StepUp(c: Path, t: Tree)
    requires Broken(c, t) && c[1].sib.IsRed()
    ensures |c| > 1
    ensures var u := Recoloured(c[0], c[1], t);
      && u.IsRed() && (Broken(c[2..], u) || Settled(c[2..], u))
      && InOrder(Plug(c[2..], u)) == InOrder(Plug(c, t)) && Size(Plug(c[2..], u)) == Size(Plug(c, t))
      && Potential(Plug(c[2..], u)) + 1 <= Potential(Plug(c, t)) + if Broken(c[2..], u) then 0 else 1
  {
    RecolouringMovesUp(c, t);
    var u, was := Recoloured(c[0], c[1], t), c[1].Around(c[0].Around(t));
    PlugTwo(c, t);
    assert !was.IsRed() by { assert GoodPath(c[1..], BlackHeight(t)); }
    hide InOrder, Size, Potential, Plug, PathPotential, Recoloured;
    KeysOfPlug(c[2..], u, was);
    SizeOfPlug(c[2..], u, was);
    PotentialOfPlug(c[2..], u);
    PotentialOfPlug(c[2..], was);
    HoleColour(c[2..]);
  }

  /** The last step costs one repair step and raises the potential by at most one. */
  lemma StepLast(c: Path, t: Tree)
    requires Broken(c, t) && !c[1].sib.IsRed()
    ensures |c| > 1
    ensures var u := Rotated(c[0], c[1], t);
      && u.T? && !u.red && Settled(c[2..], u)
      && InOrder(Plug(c[2..], u)) == InOrder(Plug(c, t)) && Size(Plug(c[2..], u)) == Size(Plug(c, t))
      && Potential(Plug(c[2..], u)) <= Potential(Plug(c, t)) + 1
  {
    RotationSettles(c, t);
    var u, was := Rotated(c[0], c[1], t), c[1].Around(c[0].Around(t));
    PlugTwo(c, t);
    assert !was.IsRed() by { assert GoodPath(c[1..], BlackHeight(t)); }
    hide InOrder, Size, Potential, Plug, PathPotential, Rotated;
    KeysOfPlug(c[2..], u, was);
    SizeOfPlug(c[2..], u, was);
    PotentialOfPlug(c[2..], u);
    PotentialOfPlug(c[2..], was);
  }

  /** root->color = BLACK at the end costs nothing. */
  lemma BlackRoot(c: Path, t: Tree)
    requires Settled(c, t) && t.T?
    ensures var w := Paint(Plug(c, t), false);
      && w.T? && Good(w) && !w.red && InOrder(w) == InOrder(Plug(c, t)) && Size(w) == Size(Plug(c, t))
      && Potential(w) == Potential(Plug(c, t))
  {
    GoodPlug(c, t);
    if |c| > 0 { TopIsBlack(c, BlackHeight(t)); }
  }
}

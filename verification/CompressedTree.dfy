/**
  The class of compressed_radix_tree.cpp: its loops over bit positions, with the path from the root
  kept beside the current node in place of the parent pointers.
 */
module CompressedTree {
  import opened Powers
  import opened RadixKeys
  import opened CompressedRadix
  import opened RadixHistory
  import opened RadixShape

  // ---------- Shifts and masks against digits ----------

  /** The child to look at. */
  lemma IdIsDigit(v: nat, mov: nat)
    requires 2 <= mov && mov % 2 == 0
    ensures Field(v, mov, 2) == Digits(v, mov)[0] < 4
  {
    hide Digits, Field, Number, Pow2;
    FieldIs(v, mov, 2);
    var k := Digits(v, mov);
    assert k[..1] == [k[0]];
    OneDigit(k[0]);
  }

  lemma OneDigit(d: nat)
    ensures Number([d]) == d
  {
    assert [d][..0] == [];
  }

  /** The comparison of a label with the bits of the value at its place. */
  lemma LabelMatches(c: Tree, v: nat, mov: nat)
    requires c.Node? && c.len <= mov && c.len % 2 == mov % 2 == 0 && c.value < Pow2(c.len)
    ensures c.value == Field(v, mov, c.len) <==> Label(c) <= Digits(v, mov)
    ensures |Label(c)| == c.len / 2 && Digits(v, mov)[|Label(c)|..] == Digits(v, mov - c.len)
  {
    hide Digits, Field, Number, Pow2;
    FieldIs(v, mov, c.len);
    if Label(c) <= Digits(v, mov) {
      SameDigits(c.value, Field(v, mov, c.len), c.len);
    }
  }

  lemma RestIsNumber(v: nat, mov: nat)
    requires mov % 2 == 0
    ensures Low(v, mov) == Number(Digits(v, mov)) < Pow2(mov) && Digits(Low(v, mov), mov) == Digits(v, mov)
  {
    hide Digits, Number, Pow2;
    DigitsOfLow(v, mov, mov);
    NumberOfDigits(Low(v, mov), mov);
  }

  lemma {:induction false} ShrFits(v: nat, n: nat, k: nat)
    requires k <= n && n % 2 == k % 2 == 0 && v < Pow2(n)
    ensures Shr(v, k) < Pow2(n - k)
  {
    hide Shr;
    if k >= 2 {
      FourTimes(n);
      ShrFits(v / 4, n - 2, k - 2);
      ShrTwice(v, k);
    } else {
      ShrNothing(v);
    }
  }

  /** Shifting and masking a label of n bits cut it after n - k bits. */
  lemma CutLabel(v: nat, n: nat, k: nat)
    requires k <= n && n % 2 == k % 2 == 0 && v < Pow2(n)
    ensures Shr(v, k) == Number(Digits(v, n)[..(n - k) / 2]) && Low(v, k) == Number(Digits(v, n)[(n - k) / 2..])
  {
    hide Digits, Number, Shr, Low, Pow2;
    DigitsSplit(v, n, k);
    ShrFits(v, n, k);
    NumberOfDigits(Shr(v, k), n - k);
    RestIsNumber(v, k);
  }

  lemma {:induction false} NumberJoins(a: seq<nat>, b: seq<nat>)
    ensures Number(a + b) == Number(a) * Pow2(2 * |b|) + Number(b)
  {
    if b == [] {
      assert a + b == a;
      assert Pow2(0) == 1;
    } else {
      var front, d := b[..|b| - 1], b[|b| - 1];
      NumberJoins(a, front);
      assert (a + b)[..|a + b| - 1] == a + front;
      FourTimes(2 * |b|);
      Distribute(Number(a), Pow2(2 * |front|), Number(front), d);
    }
  }

  lemma Distribute(x: nat, p: nat, y: nat, d: nat)
    ensures 4 * (x * p + y) + d == x * (4 * p) + (4 * y + d)
  {
  }

  // ---------- Splitting a node ----------

  /** The loop that finds how many bits the label and the value have in common. */
  method SameLen(va1: nat, len1: nat, va2: nat, len2: nat) returns (sameLen: nat)
    requires len1 % 2 == len2 % 2 == 0 && 2 <= len1 <= len2 && va1 < Pow2(len1) && va2 < Pow2(len2)
    requires Digits(va1, len1)[0] == Digits(va2, len2)[0] && !(Digits(va1, len1) <= Digits(va2, len2))
    ensures sameLen == 2 * Common(Digits(va1, len1), Digits(va2, len2))
  {
    hide Digits, Number, Shr, Common;
    ghost var a, b := Digits(va1, len1), Digits(va2, len2);
    sameLen := 4;
    StartTogether(a, b);
    while sameLen <= len1 && Shr(va1, len1 - sameLen) == Shr(va2, len2 - sameLen)
      invariant sameLen % 2 == 0 && 4 <= sameLen <= len1 + 2
      invariant a[..sameLen / 2 - 1] == b[..sameLen / 2 - 1]
    {
      PrefixesAgree(va1, len1, va2, len2, sameLen);
      sameLen := sameLen + 2;
    }
    StopsAtDifference(va1, len1, va2, len2, sameLen);
    sameLen := sameLen - 2;
  }

  lemma StartTogether(a: seq<nat>, b: seq<nat>)
    requires |a| > 0 && |b| > 0 && a[0] == b[0]
    ensures a[..1] == b[..1]
  {
  }

  lemma PrefixesAgree(va1: nat, len1: nat, va2: nat, len2: nat, same: nat)
    requires len1 % 2 == len2 % 2 == same % 2 == 0 && same <= len1 <= len2 && va1 < Pow2(len1) && va2 < Pow2(len2)
    ensures Shr(va1, len1 - same) == Shr(va2, len2 - same) <==> Digits(va1, len1)[..same / 2] == Digits(va2, len2)[..same / 2]
  {
    hide Digits, Number, Shr, Low;
    CutLabel(va1, len1, len1 - same);
    CutLabel(va2, len2, len2 - same);
    var a, b := Digits(va1, len1)[..same / 2], Digits(va2, len2)[..same / 2];
    DigitsOfNumber(a);
    DigitsOfNumber(b);
  }

  lemma StopsAtDifference(va1: nat, len1: nat, va2: nat, len2: nat, same: nat)
    requires len1 % 2 == len2 % 2 == same % 2 == 0 && 4 <= same <= len1 + 2 && len1 <= len2
    requires va1 < Pow2(len1) && va2 < Pow2(len2)
    requires Digits(va1, len1)[..same / 2 - 1] == Digits(va2, len2)[..same / 2 - 1]
    requires !(Digits(va1, len1) <= Digits(va2, len2))
    requires same <= len1 ==> Shr(va1, len1 - same) != Shr(va2, len2 - same)
    ensures same - 2 == 2 * Common(Digits(va1, len1), Digits(va2, len2))
  {
    hide Digits, Number, Shr, Common;
    var a, b, m := Digits(va1, len1), Digits(va2, len2), same / 2 - 1;
    assert a[..|a|] == a;
    if same <= len1 {
      PrefixesAgree(va1, len1, va2, len2, same);
      assert a[..m + 1] == a[..m] + [a[m]] && b[..m + 1] == b[..m] + [b[m]];
      CommonIs(a, b, m);
    }
  }

  /** The new inner node over the old child and a new leaf. */
  method SplitNode(now: Tree, value: nat, mov: nat) returns (newFa: Tree)
    requires now.Node? && now.len % 2 == mov % 2 == 0 && 2 <= now.len <= mov && now.value < Pow2(now.len)
    requires Label(now)[0] == Digits(value, mov)[0] && !(Label(now) <= Digits(value, mov))
    ensures Common(Label(now), Digits(value, mov)) < |Label(now)|
    ensures newFa == Split(now, Digits(value, mov))
  {
    hide Digits, Number, Shr, Low, Common, Pow2;
    ghost var k := Digits(value, mov);
    CommonIsInside(Label(now), k);
    var va1, va2 := now.value, Low(value, mov);
    var len1, len2 := now.len, mov;
    RestIsNumber(value, mov);
    var sameLen := SameLen(va1, len1, va2, len2);
    CutLabel(va1, len1, len1 - sameLen);
    CutLabel(va2, len2, len2 - sameLen);
    newFa := Node(Shr(va1, len1 - sameLen), sameLen, 2, NONE);
    len1 := len1 - sameLen;
    va1 := Low(va1, len1);
    len2 := len2 - sameLen;
    va2 := Low(va2, len2);
    ghost var m := sameLen / 2;
    assert Label(now)[..m] == k[..m];
    TopDigit(va2, len2, k[m..]);
    TopDigit(va1, len1, Label(now)[m..]);
    newFa := newFa.(kids := newFa.kids[Field(va2, len2, 2) := Node(va2, len2, 0, NONE)]);
    newFa := newFa.(kids := newFa.kids[Field(va1, len1, 2) := now.(value := va1, len := len1)]);
  }

  lemma TopDigit(v: nat, n: nat, s: seq<nat>)
    requires AreDigits(s) && |s| > 0 && n == 2 * |s| && v == Number(s)
    ensures Field(v, n, 2) == s[0] < 4
  {
    DigitsOfNumber(s);
    IdIsDigit(v, n);
  }

  // ---------- The path from the root ----------

  /** A node on the path and the child through which the path goes on. */
  datatype Frame = Frame(node: Tree, id: nat)

  ghost predicate PathOk(path: seq<Frame>) {
    forall i | 0 <= i < |path| :: Counted(path[i].node) && path[i].id < 4 && path[i].node.kids[path[i].id].Node?
  }

  function WithKid(f: Frame, t: Tree): Tree
    requires f.node.Node? && f.id < |f.node.kids|
  {
    f.node.(kids := f.node.kids[f.id := t])
  }

  /** The whole tree when t hangs at the end of the path. */
  ghost function Plug(path: seq<Frame>, t: Tree): Tree
    requires PathOk(path)
  {
    if path == [] then t else Plug(path[..|path| - 1], WithKid(path[|path| - 1], t))
  }

  lemma PlugNothing(t: Tree)
    ensures Plug([], t) == t
  {
  }

  lemma PlugMore(path: seq<Frame>, f: Frame, t: Tree)
    requires PathOk(path) && Counted(f.node) && f.id < 4 && f.node.kids[f.id].Node?
    ensures PathOk(path + [f]) && Plug(path + [f], t) == Plug(path, WithKid(f, t))
  {
    assert (path + [f])[..|path|] == path;
  }

  /** The whole tree when r is put back at the end of the path and every node above it is looked at. */
  ghost function PutUp(path: seq<Frame>, r: Tree): Tree
    requires PathOk(path) && Counted(r)
  {
    if path == [] then r
    else
      var f := path[|path| - 1];
      PutUp(path[..|path| - 1], Put(f.node, f.id, r))
  }

  lemma PutUpMore(path: seq<Frame>, f: Frame, r: Tree)
    requires PathOk(path) && Counted(f.node) && f.id < 4 && f.node.kids[f.id].Node? && Counted(r)
    ensures PathOk(path + [f]) && PutUp(path + [f], r) == PutUp(path, Put(f.node, f.id, r))
  {
    assert (path + [f])[..|path|] == path;
  }

  /** How many nodes go on the way up. */
  ghost function Dropped(path: seq<Frame>, r: Tree): nat
    requires PathOk(path) && Counted(r)
  {
    if path == [] then 0
    else
      var f := path[|path| - 1];
      (if r.chdNum <= 1 then 1 else 0) + Dropped(path[..|path| - 1], Put(f.node, f.id, r))
  }

  lemma {:induction false} PlugCounts(path: seq<Frame>, x: Tree, y: Tree)
    requires PathOk(path)
    ensures Nodes(Plug(path, x)) + Nodes(y) == Nodes(Plug(path, y)) + Nodes(x)
    decreases |path|
  {
    if path != [] {
      hide Nodes;
      var f := path[|path| - 1];
      PlugCounts(path[..|path| - 1], WithKid(f, x), WithKid(f, y));
      OneKidCounts(WithKid(f, x), WithKid(f, y), f.id);
    }
  }

  lemma {:induction false} DroppedCounts(path: seq<Frame>, r: Tree)
    requires PathOk(path) && Counted(r)
    ensures Nodes(PutUp(path, r)) + Dropped(path, r) == Nodes(Plug(path, r))
    decreases |path|
  {
    if path != [] {
      hide Nodes, Put, Count;
      var front, f := path[..|path| - 1], path[|path| - 1];
      var u := Put(f.node, f.id, r);
      DroppedCounts(front, u);
      PutCounts(f.node, f.id, r);
      PlugCounts(front, u, WithKid(f, r));
      OneKidCounts(f.node, WithKid(f, r), f.id);
    }
  }

  // ---------- The class ----------

  class Compressed {
    var root: Tree
    var sizeNum: nat

    ghost predicate Valid()
      reads this
    {
      Good(root, BITS / 2) && root.value == root.len == 0 && sizeNum == Nodes(root)
    }

    ghost predicate Contains(v: nat)
      reads this
    {
      Has(root, KeyOf(v))
    }

    constructor ()
      ensures Valid() && root == C_ROOT && forall v | IsValue(v) :: !Contains(v)
    {
      root, sizeNum := C_ROOT, 1;
    }

    method Find(value: nat) returns (found: bool)
      requires Valid()
      ensures found <==> Contains(value)
    {
      hide Digits, Number, Field, Good, Has, Label;
      var now: Tree, mov: nat := root, BITS;
      while mov > 0
        invariant mov % 2 == 0 && mov <= BITS && Good(now, mov / 2)
        invariant Contains(value) <==> Has(now, Digits(value, mov))
      {
        StepDown(now, value, mov);
        var id := Field(value, mov, 2);
        var c := now.kids[id];
        if c.Nil? || c.value != Field(value, mov, c.len) { return false; }
        now := c;
        mov := mov - c.len;
      }
      HasNothing(now, value);
      return true;
    }

    /** Follow the path up to the root, as the loops over the parent pointers do. */
    method PlugUp(path0: seq<Frame>, t: Tree)
      requires PathOk(path0)
      modifies `root
      ensures root == Plug(path0, t)
    {
      var path, now := path0, t;
      while path != []
        invariant PathOk(path) && Plug(path, now) == Plug(path0, t)
        decreases |path|
      {
        now := WithKid(path[|path| - 1], now);
        path := path[..|path| - 1];
      }
      root := now;
    }

    /** insert: walk down while labels match, then add a leaf or split a node. */
    method Insert(value: nat)
      requires Valid() && IsValue(value)
      modifies this
      ensures Valid() && root == CompressedRadix.Insert(old(root), KeyOf(value))
      ensures forall v | IsValue(v) :: Contains(v) <==> old(Contains(v)) || v == value
    {
      hide Digits, Number, Field, Good, Has, Label, CompressedRadix.Insert, Added, Plug, Nodes, Split, Low, Count, Common;
      var now: Tree, mov: nat, path := root, BITS, [];
      ghost var t0 := root;
      InsertResult(t0, value);
      PlugNothing(root);
      PlugNothing(CompressedRadix.Insert(root, Digits(value, mov)));
      while mov > 0
        invariant mov % 2 == 0 && mov <= BITS && Good(now, mov / 2) && PathOk(path)
        invariant Plug(path, CompressedRadix.Insert(now, Digits(value, mov))) == CompressedRadix.Insert(t0, KeyOf(value))
        invariant Added(now, Digits(value, mov)) == Added(t0, KeyOf(value))
        invariant Plug(path, now) == root == t0 && sizeNum == Nodes(t0)
      {
        StepDown(now, value, mov);
        InsertStep(now, value, mov);
        var id := Field(value, mov, 2);
        var c := now.kids[id];
        if c.Nil? {
          RestIsNumber(value, mov);
          now := now.(kids := now.kids[id := Node(Low(value, mov), mov, 0, NONE)], chdNum := now.chdNum + 1);
          PlugUp(path, now);
          sizeNum := sizeNum + 1;
          return;
        }
        if c.value != Field(value, mov, c.len) {
          var newFa := SplitNode(c, value, mov);
          now := now.(kids := now.kids[id := newFa]);
          PlugUp(path, now);
          sizeNum := sizeNum + 2;
          return;
        }
        PlugMore(path, Frame(now, id), CompressedRadix.Insert(c, Digits(value, mov - c.len)));
        PlugMore(path, Frame(now, id), c);
        assert WithKid(Frame(now, id), c) == now;
        path := path + [Frame(now, id)];
        now := c;
        mov := mov - c.len;
      }
      NothingToInsert(now, value);
    }

    /** remove: walk down to the leaf, then go back up, dropping leaves and merging only children. */
    method Remove(value: nat)
      requires Valid() && IsValue(value)
      modifies this
      ensures Valid()
      ensures root == if old(Contains(value)) then CompressedRadix.Remove(old(root), KeyOf(value)) else old(root)
      ensures forall v | IsValue(v) :: Contains(v) <==> old(Contains(v)) && v != value
    {
      hide Digits, Number, Field, Good, Has, Label, CompressedRadix.Remove, Plug, PutUp, Dropped, Nodes, Count, LabelOk, Labelled, PathOk;
      var now: Tree, mov: nat, path := root, BITS, [];
      ghost var t0 := root;
      RemoveResult(t0, value);
      RemoveStart(t0, value);
      while mov > 0
        invariant mov % 2 == 0 && mov <= BITS && Good(now, mov / 2) && PathOk(path) && AllLabelled(path, now)
        invariant Has(t0, KeyOf(value)) <==> Has(now, Digits(value, mov))
        invariant Has(t0, KeyOf(value)) ==>
          Counted(CompressedRadix.Remove(now, Digits(value, mov))) &&
          PutUp(path, CompressedRadix.Remove(now, Digits(value, mov))) == CompressedRadix.Remove(t0, KeyOf(value))
        invariant Plug(path, now) == root == t0 && sizeNum == Nodes(t0)
      {
        StepDown(now, value, mov);
        var id := Field(value, mov, 2);
        var c := now.kids[id];
        if c.Nil? || c.value != Field(value, mov, c.len) { return; }
        RemoveStep(path, now, value, mov, id, c);
        path := path + [Frame(now, id)];
        now := c;
        mov := mov - c.len;
      }
      RemoveEnd(now, value);
      ghost var path0, now0 := path, now;
      DroppedCounts(path0, now0);
      while path != []
        invariant PathOk(path) && Counted(now) && AllLabelled(path, now)
        invariant PutUp(path, now) == PutUp(path0, now0)
        invariant sizeNum + Dropped(path0, now0) == Nodes(t0) + Dropped(path, now)
        decreases |path|
      {
        PutUpStep(path, now);
        var nxt, id := path[|path| - 1].node, path[|path| - 1].id;
        if now.chdNum == 0 {
          nxt := nxt.(kids := nxt.kids[id := Nil], chdNum := nxt.chdNum - 1);
          sizeNum := sizeNum - 1;
        } else if now.chdNum == 1 {
          var cd := FirstKid(now);
          MergedValue(now, cd);
          // the bits of the two labels do not overlap
          cd := cd.(value := cd.value + now.value * Pow2(cd.len), len := cd.len + now.len);
          nxt := nxt.(kids := nxt.kids[id := cd]);
          sizeNum := sizeNum - 1;
        } else {
          nxt := nxt.(kids := nxt.kids[id := now]);
        }
        now := nxt;
        path := path[..|path| - 1];
      }
      UpAtRoot(now);
      root := now;
    }
  }

  /** The loop that finds the only child. */
  method FirstKid(t: Tree) returns (cd: Tree)
    requires Counted(t) && t.chdNum == 1
    ensures cd.Node? && cd == Only(t.kids)
  {
    var i := 0;
    while t.kids[i].Nil?
      invariant i < 4 && forall j | 0 <= j < i :: t.kids[j].Nil?
      decreases 4 - i
    {
      i := i + 1;
    }
    cd := t.kids[i];
  }

  // ---------- Labels on the way up ----------

  ghost predicate LabelOk(t: Tree) {
    t.Node? && t.len % 2 == 0 && t.value < Pow2(t.len)
  }

  ghost predicate Labelled(t: Tree) {
    Counted(t) && LabelOk(t) && forall i | 0 <= i < 4 && t.kids[i].Node? :: LabelOk(t.kids[i])
  }

  ghost predicate AllLabelled(path: seq<Frame>, now: Tree) {
    Labelled(now) && forall i | 0 <= i < |path| :: Labelled(path[i].node)
  }

  lemma GoodIsLabelled(t: Tree, n: nat)
    requires Good(t, n) && LabelOk(t)
    ensures Labelled(t)
  {
    forall i | 0 <= i < 4 && t.kids[i].Node? ensures LabelOk(t.kids[i]) {
      assert GoodKid(t.kids[i], i, n);
    }
  }

  lemma MergedValue(now: Tree, cd: Tree)
    requires Labelled(now) && now.chdNum == 1 && cd == Only(now.kids)
    ensures LabelOk(cd)
    ensures WithLabel(cd, Label(now) + Label(cd)) == cd.(value := cd.value + now.value * Pow2(cd.len), len := cd.len + now.len)
    ensures LabelOk(WithLabel(cd, Label(now) + Label(cd)))
  {
    hide Digits, Number, Pow2;
    assert LabelOk(cd);
    NumberJoins(Label(now), Label(cd));
    NumberOfDigits(now.value, now.len);
    NumberOfDigits(cd.value, cd.len);
    NumberBound(Label(now) + Label(cd));
  }

  lemma PutIsLabelled(t: Tree, i: nat, r: Tree)
    requires Labelled(t) && Labelled(r) && i < 4 && t.kids[i].Node?
    ensures Labelled(Put(t, i, r))
  {
    hide LabelOk;
    if r.chdNum == 1 { MergedValue(r, Only(r.kids)); }
    PutKeepsLabel(t, i, r);
  }

  lemma PutKeepsLabel(t: Tree, i: nat, r: Tree)
    requires LabelOk(t) && Counted(t) && Counted(r) && i < 4 && t.kids[i].Node?
    ensures LabelOk(Put(t, i, r))
  {
  }

  // ---------- The steps of the removal ----------

  lemma RemoveStart(t: Tree, value: nat)
    requires Good(t, BITS / 2) && t.value == t.len == 0
    ensures PathOk([]) && AllLabelled([], t) && Plug([], t) == t
    ensures Has(t, KeyOf(value)) ==>
      var u := CompressedRadix.Remove(t, KeyOf(value)); Counted(u) && PutUp([], u) == u
  {
    assert LabelOk(t);
    GoodIsLabelled(t, BITS / 2);
  }

  lemma RemoveStep(path: seq<Frame>, now: Tree, value: nat, mov: nat, id: nat, c: Tree)
    requires Good(now, mov / 2) && mov >= 2 && mov % 2 == 0 && PathOk(path) && AllLabelled(path, now)
    requires id == Field(value, mov, 2) < 4 && now.kids[id] == c && c.Node? && c.len <= mov && c.value == Field(value, mov, c.len)
    ensures c.len % 2 == 0 && Good(c, (mov - c.len) / 2)
    ensures PathOk(path + [Frame(now, id)]) && AllLabelled(path + [Frame(now, id)], c)
    ensures Plug(path + [Frame(now, id)], c) == Plug(path, now)
    ensures Has(now, Digits(value, mov)) ==>
      && Has(c, Digits(value, mov - c.len))
      && Counted(CompressedRadix.Remove(now, Digits(value, mov))) && Counted(CompressedRadix.Remove(c, Digits(value, mov - c.len)))
      && PutUp(path + [Frame(now, id)], CompressedRadix.Remove(c, Digits(value, mov - c.len)))
         == PutUp(path, CompressedRadix.Remove(now, Digits(value, mov)))
  {
    hide Digits, Number, Field, Has, Plug, PutUp, Label, Put, Good, GoodKid, Labelled, LabelOk, CompressedRadix.Remove, Count, Pow2;
    StepDown(now, value, mov);
    var f := Frame(now, id);
    KidIsLabelled(c, (mov - c.len) / 2);
    GoodIsCounted(now, mov / 2);
    PlugMore(path, f, c);
    assert WithKid(f, c) == now;
    var k := Digits(value, mov);
    if Has(now, k) {
      RestIsGood(now, c, k, mov / 2);
      PutUpMore(path, f, CompressedRadix.Remove(c, Digits(value, mov - c.len)));
    }
  }

  lemma KidIsLabelled(c: Tree, n: nat)
    requires c.Node? && c.len % 2 == 0 && c.value < Pow2(c.len) && Good(c, n)
    ensures Labelled(c)
  {
    GoodIsLabelled(c, n);
  }

  lemma RemoveEnd(t: Tree, value: nat)
    requires Good(t, 0)
    ensures Has(t, Digits(value, 0)) && CompressedRadix.Remove(t, Digits(value, 0)) == t && Counted(t)
  {
  }

  lemma PutUpStep(path: seq<Frame>, now: Tree)
    requires path != [] && PathOk(path) && Counted(now) && AllLabelled(path, now)
    ensures var f, front := path[|path| - 1], path[..|path| - 1]; var u := Put(f.node, f.id, now);
      && PathOk(front) && Counted(f.node) && f.id < 4 && f.node.chdNum > 0 && Counted(u) && AllLabelled(front, u)
      && PutUp(path, now) == PutUp(front, u)
      && Dropped(path, now) == (if now.chdNum <= 1 then 1 else 0) + Dropped(front, u)
  {
    var f := path[|path| - 1];
    PutIsLabelled(f.node, f.id, now);
  }

  lemma UpAtRoot(t: Tree)
    requires Counted(t)
    ensures PutUp([], t) == t && Dropped([], t) == 0
  {
  }

  /** The tree and the set after the removal. */
  lemma RemoveResult(t: Tree, value: nat)
    requires Good(t, BITS / 2) && IsValue(value)
    ensures Has(t, KeyOf(value)) ==>
      var u := CompressedRadix.Remove(t, KeyOf(value));
      && Good(u, BITS / 2) && u.value == t.value && u.len == t.len
      && forall v | IsValue(v) :: Has(u, KeyOf(v)) <==> Has(t, KeyOf(v)) && v != value
  {
    hide Digits, Number, Good, Has;
    var k := KeyOf(value);
    if Has(t, k) {
      RemoveIsGood(t, k, BITS / 2);
      forall v | IsValue(v) ensures Has(CompressedRadix.Remove(t, k), KeyOf(v)) <==> Has(t, KeyOf(v)) && v != value {
        RemoveHas(t, k, BITS / 2, KeyOf(v));
        KeyIsNumber(v, k);
        KeyIsNumber(value, k);
      }
    }
  }

  /** One step of the insertion. */
  lemma {:induction false} InsertStep(now: Tree, value: nat, mov: nat)
    requires Good(now, mov / 2) && mov >= 2 && mov % 2 == 0
    ensures var k := Digits(value, mov);
      && Counted(now) && k[0] < 4 && |k| == mov / 2 && AreDigits(k)
      && var c := now.kids[k[0]];
      && (c.Nil? ==> CompressedRadix.Insert(now, k) == now.(kids := now.kids[k[0] := Leaf(k)], chdNum := now.chdNum + 1) && Added(now, k) == 1)
      && (c.Node? && Label(c) <= k ==>
            && Good(c, |k| - |Label(c)|)
            && CompressedRadix.Insert(now, k) == WithKid(Frame(now, k[0]), CompressedRadix.Insert(c, k[|Label(c)|..]))
            && Added(now, k) == Added(c, k[|Label(c)|..]))
      && (c.Node? && !(Label(c) <= k) ==>
            && Label(c)[0] == k[0] && Common(Label(c), k) < |Label(c)| <= |k|
            && CompressedRadix.Insert(now, k) == now.(kids := now.kids[k[0] := Split(c, k)]) && Added(now, k) == 2)
  {
    hide Digits, Number;
    var k := Digits(value, mov);
    var c := now.kids[k[0]];
    if c.Node? {
      assert GoodKid(c, k[0], mov / 2);
      GoodLabel(c, k[0], mov / 2);
      if !(Label(c) <= k) { CommonIsInside(Label(c), k); }
    }
  }

  lemma NothingToInsert(t: Tree, value: nat)
    requires Good(t, 0)
    ensures CompressedRadix.Insert(t, Digits(value, 0)) == t && Added(t, Digits(value, 0)) == 0
  {
  }

  /** The tree and the set after the insertion. */
  lemma InsertResult(t: Tree, value: nat)
    requires Good(t, BITS / 2) && IsValue(value)
    ensures var u := CompressedRadix.Insert(t, KeyOf(value));
      && Good(u, BITS / 2) && u.value == t.value && u.len == t.len && Nodes(u) == Nodes(t) + Added(t, KeyOf(value))
      && forall v | IsValue(v) :: Has(u, KeyOf(v)) <==> Has(t, KeyOf(v)) || v == value
  {
    hide Digits, Number, Good, Has, CompressedRadix.Insert, Nodes, Added;
    var k := KeyOf(value);
    InsertIsGood(t, k, BITS / 2);
    InsertCounts(t, k, BITS / 2);
    forall v | IsValue(v) ensures Has(CompressedRadix.Insert(t, k), KeyOf(v)) <==> Has(t, KeyOf(v)) || v == value {
      InsertHas(t, k, BITS / 2, KeyOf(v));
      KeyIsNumber(v, k);
      KeyIsNumber(value, k);
    }
  }

  lemma HasNothing(t: Tree, value: nat)
    ensures Has(t, Digits(value, 0)) && Digits(value, 0) == []
  {
  }

  /** What the loops look at, said of digits. */
  lemma StepDown(now: Tree, value: nat, mov: nat)
    requires Good(now, mov / 2) && mov >= 2 && mov % 2 == 0
    ensures var k := Digits(value, mov); var id := Field(value, mov, 2);
      && now.Node? && |now.kids| == 4 && id == k[0] < 4 && Key(k, mov / 2)
      && (now.kids[id].Nil? ==> !Has(now, k))
      && (now.kids[id].Node? ==>
            var c := now.kids[id];
            && 2 <= c.len <= mov && c.len % 2 == 0 && c.value < Pow2(c.len) && Good(c, (mov - c.len) / 2) && GoodKid(c, id, mov / 2)
            && (c.value == Field(value, mov, c.len) <==> Label(c) <= k)
            && (c.value == Field(value, mov, c.len) ==> (Has(now, k) <==> Has(c, Digits(value, mov - c.len))))
            && (c.value != Field(value, mov, c.len) ==> !Has(now, k))
            && k[|Label(c)|..] == Digits(value, mov - c.len))
  {
    hide Digits, Field, Number;
    IdIsDigit(value, mov);
    var k := Digits(value, mov);
    HasStep(now, k, mov / 2);
    var c := now.kids[k[0]];
    if c.Node? {
      assert GoodKid(c, k[0], mov / 2);
      LabelMatches(c, value, mov);
    }
  }
}

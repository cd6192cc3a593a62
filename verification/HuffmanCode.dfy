/**
  The code table of a tree, its optimality, and decoding by walking the tree.  A code is a
  sequence of bits; '0' is false and '1' is true.
 */
module HuffmanCode {
  import opened HuffmanTree
  import opened HuffmanOptimal

  // ---------- The code table ----------

  /** addTable: the codes of the leaves below t, each starting with the code of t. */
  function TableOf(t: Tree, code: Code): map<string, Code> {
    match t
    case Leaf(_, text) => map[text := code]
    case Node(l, r) => TableOf(l, code + [false]) + TableOf(r, code + [true])
  }

  predicate Distinct(t: Tree) {
    match t
    case Leaf(_, _) => true
    case Node(l, r) => l.Texts() !! r.Texts() && Distinct(l) && Distinct(r)
  }

  lemma {:induction false} TableKeys(t: Tree, code: Code)
    ensures TableOf(t, code).Keys == t.Texts()
    ensures forall s | s in t.Texts() :: code <= TableOf(t, code)[s]
  {
    if t.Node? {
      TableKeys(t.left, code + [false]);
      TableKeys(t.right, code + [true]);
    }
  }

  /** No code of the table is a prefix of another one. */
  lemma {:induction false} TableIsPrefixFree(t: Tree, code: Code, s: string, s': string)
    requires Distinct(t) && s in t.Texts() && s' in t.Texts() && s != s'
    ensures TableOf(t, code).Keys == t.Texts()
    ensures !Comparable(TableOf(t, code)[s], TableOf(t, code)[s'])
  {
    TableKeys(t, code);
    var cl, cr := code + [false], code + [true];
    TableKeys(t.left, cl);
    TableKeys(t.right, cr);
    if s in t.left.Texts() && s' in t.left.Texts() {
      TableIsPrefixFree(t.left, cl, s, s');
    } else if s in t.right.Texts() && s' in t.right.Texts() {
      TableIsPrefixFree(t.right, cr, s, s');
    } else {
      var c, c' := TableOf(t, code)[s], TableOf(t, code)[s'];
      assert c[|code|] == cl[|code|] || c[|code|] == cr[|code|];
      assert c[|code|] != c'[|code|];
    }
  }

  // ---------- Which leaves a merged tree has ----------

  function Occ(s: string, t: Tree): nat {
    match t
    case Leaf(_, text) => if text == s then 1 else 0
    case Node(l, r) => Occ(s, l) + Occ(s, r)
  }

  lemma {:induction false} OccTexts(s: string, t: Tree)
    ensures s in t.Texts() <==> Occ(s, t) > 0
  {
    if t.Node? {
      OccTexts(s, t.left);
      OccTexts(s, t.right);
    }
  }

  lemma {:induction false} DistinctWhen(t: Tree)
    requires forall s :: Occ(s, t) <= 1
    ensures Distinct(t)
  {
    if t.Node? {
      forall s ensures Occ(s, t.left) <= 1 && Occ(s, t.right) <= 1 {
        assert Occ(s, t) <= 1;
      }
      DistinctWhen(t.left);
      DistinctWhen(t.right);
      forall s | s in t.left.Texts() ensures s !in t.right.Texts() {
        assert Occ(s, t) <= 1;
        OccTexts(s, t.left);
        OccTexts(s, t.right);
      }
    }
  }

  /** The queue that the constructor starts with: leaves with different texts. */
  predicate AreLeaves(q: seq<Tree>) {
    |q| == 0 || (q[0].Leaf? && AreLeaves(q[1..]) && q[0].text !in QueueTexts(q[1..]))
  }

  function QueueTexts(q: seq<Tree>): set<string> {
    if |q| == 0 then {} else q[0].Texts() + QueueTexts(q[1..])
  }

  lemma {:induction false} OccInLeaves(s: string, q: seq<Tree>)
    requires AreLeaves(q)
    ensures Sum(t => Occ(s, t), q) == if s in QueueTexts(q) then 1 else 0
  {
    if |q| > 0 { OccInLeaves(s, q[1..]); }
  }

  /** The tree has exactly the queued leaves, each once. */
  lemma BuildOfLeaves(q: seq<Tree>)
    requires AreLeaves(q) && |q| > 0
    ensures Distinct(Build(q)) && Build(q).Texts() == QueueTexts(q)
  {
    hide Build, QueueTexts, AreLeaves, Sum;
    var root := Build(q);
    forall s ensures Occ(s, root) == if s in QueueTexts(q) then 1 else 0 {
      BuildKeepsSum(t => Occ(s, t), q);
      OccInLeaves(s, q);
    }
    DistinctWhen(root);
    forall s ensures s in root.Texts() <==> s in QueueTexts(q) { OccTexts(s, root); }
  }

  // ---------- Totals ----------

  /** Total of count times code length over the leaves of t. */
  function Total(t: Tree, m: map<string, Code>): nat {
    match t
    case Leaf(c, s) => if s in m then c * |m[s]| else 0
    case Node(l, r) => Total(l, m) + Total(r, m)
  }

  /** The sum of the weights of the inner nodes. */
  function Internal(t: Tree): nat {
    match t
    case Leaf(_, _) => 0
    case Node(l, r) => t.Cnt() + Internal(l) + Internal(r)
  }

  /** m gives the leaves of t the codes that addTable gives them from code on. */
  ghost predicate Agrees(t: Tree, code: Code, m: map<string, Code>) {
    forall s | s in t.Texts() :: s in m && TableOf(t, code).Keys == t.Texts() && m[s] == TableOf(t, code)[s]
  }

  lemma ChildrenAgree(t: Tree, code: Code, m: map<string, Code>)
    requires t.Node? && Distinct(t) && Agrees(t, code, m)
    ensures Agrees(t.left, code + [false], m) && Agrees(t.right, code + [true], m)
  {
    TableKeys(t.left, code + [false]);
    TableKeys(t.right, code + [true]);
  }

  /** Both subtrees sit one level below the root. */
  lemma OneLevel(a: nat, b: nat, n: nat, l: nat, x: nat, y: nat)
    requires l == n + 1
    ensures (a * l + x) + (b * l + y) == (a + b) * n + (a + b + x + y)
  {
    assert a * l == a * n + a && b * l == b * n + b;
  }

  lemma {:induction false} TotalOfTable(t: Tree, code: Code, m: map<string, Code>)
    requires Distinct(t) && Agrees(t, code, m)
    ensures Total(t, m) == t.Cnt() * |code| + Internal(t)
  {
    if t.Node? {
      ChildrenAgree(t, code, m);
      assert Distinct(t.left) && Distinct(t.right);
      hide *;
      TotalOfTable(t.left, code + [false], m);
      TotalOfTable(t.right, code + [true], m);
      TotalOfNode(t, code, m);
    } else {
      TotalOfLeaf(t, code, m);
    }
  }

  lemma TotalOfLeaf(t: Tree, code: Code, m: map<string, Code>)
    requires t.Leaf? && Agrees(t, code, m)
    ensures Total(t, m) == t.Cnt() * |code| + Internal(t)
  {
    assert t.text in t.Texts();
    assert m[t.text] == code;
  }

  lemma TotalOfNode(t: Tree, code: Code, m: map<string, Code>)
    requires t.Node?
    requires Total(t.left, m) == t.left.Cnt() * |code + [false]| + Internal(t.left)
    requires Total(t.right, m) == t.right.Cnt() * |code + [true]| + Internal(t.right)
    ensures Total(t, m) == t.Cnt() * |code| + Internal(t)
  {
    OneLevel(t.left.Cnt(), t.right.Cnt(), |code|, |code + [false]|, Internal(t.left), Internal(t.right));
  }

  lemma {:induction false} MergeCostIsInternal(q: seq<Tree>)
    requires |q| > 0
    ensures MergeCost(q) + Sum(Internal, q) == Internal(Build(q))
    decreases |q|
  {
    if |q| > 1 {
      var i := Top(q);
      var q1 := Remove(q, i);
      var j := Top(q1);
      var top := Merge(q[i], q1[j]);
      SumRemove(Internal, q, i);
      SumRemove(Internal, q1, j);
      SumAppend(Internal, Remove(q1, j), [top]);
      MergeCostIsInternal(Step(q));
    }
  }

  lemma {:induction false} LeavesHaveNoInternal(q: seq<Tree>)
    requires AreLeaves(q)
    ensures Sum(Internal, q) == 0
  {
    if |q| > 0 { LeavesHaveNoInternal(q[1..]); }
  }

  // ---------- Optimality ----------

  /** m is a prefix-free code for the given texts. */
  predicate IsPrefixCode(m: map<string, Code>, texts: set<string>) {
    texts <= m.Keys && forall s, s' | s in texts && s' in texts && s != s' :: !Comparable(m[s], m[s'])
  }

  function CodesOf(q: seq<Tree>, m: map<string, Code>): (cs: seq<Code>)
    requires AreLeaves(q) && QueueTexts(q) <= m.Keys
    ensures |cs| == |q|
    ensures forall c | c in cs :: exists s :: s in QueueTexts(q) && c == m[s]
  {
    if |q| == 0 then [] else
      assert q[0].text in QueueTexts(q);
      [m[q[0].text]] + CodesOf(q[1..], m)
  }

  lemma {:induction false} CodesArePrefixFree(q: seq<Tree>, m: map<string, Code>)
    requires AreLeaves(q) && IsPrefixCode(m, QueueTexts(q))
    ensures PrefixFree(CodesOf(q, m))
    ensures Dot(q, Lengths(CodesOf(q, m))) == Sum(t => Total(t, m), q)
  {
    if |q| > 0 {
      CodesArePrefixFree(q[1..], m);
      assert q[0].text in QueueTexts(q);
      var cs := CodesOf(q, m);
      assert cs[1..] == CodesOf(q[1..], m);
      assert Lengths(cs)[1..] == Lengths(cs[1..]);
    }
  }

  lemma TableIsPrefixCode(t: Tree)
    requires Distinct(t)
    ensures TableOf(t, []).Keys == t.Texts() && IsPrefixCode(TableOf(t, []), t.Texts())
  {
    var table := TableOf(t, []);
    TableKeys(t, []);
    hide TableOf;
    forall s, s' | s in t.Texts() && s' in t.Texts() && s != s' ensures !Comparable(table[s], table[s']) {
      TableIsPrefixFree(t, [], s, s');
    }
  }

  /** No prefix-free code for the queued texts beats the inner node weights. */
  lemma InternalIsMinimal(q: seq<Tree>, m: map<string, Code>)
    requires AreLeaves(q) && |q| > 0 && IsPrefixCode(m, QueueTexts(q))
    ensures Internal(Build(q)) <= Total(Build(q), m)
  {
    assert QueueTexts(q) <= m.Keys;
    hide *;
    MergeCostIsInternal(q);
    LeavesHaveNoInternal(q);
    CodesArePrefixFree(q, m);
    MergeIsOptimal(q, CodesOf(q, m));
    KeepsTotal(q, m);
  }

  lemma KeepsTotal(q: seq<Tree>, m: map<string, Code>)
    requires |q| > 0
    ensures Total(Build(q), m) == Sum(t => Total(t, m), q)
  {
    BuildKeepsSum(t => Total(t, m), q);
  }

  /**
    The table of the tree that the merge loop builds is a prefix-free code for the queued texts;
    its total equals the sum of the inner node weights, and no prefix-free code for the same
    texts has a smaller one.
   */
  lemma TableIsOptimal(q: seq<Tree>, m: map<string, Code>)
    requires AreLeaves(q) && |q| > 0 && IsPrefixCode(m, QueueTexts(q))
    ensures var t := Build(q); var table := TableOf(t, []);
      && table.Keys == QueueTexts(q) && IsPrefixCode(table, QueueTexts(q))
      && Total(t, table) == Internal(t) <= Total(t, m)
  {
    hide Build, AreLeaves, QueueTexts, TableOf, Internal, Total, IsPrefixCode, Distinct;
    BuildOfLeaves(q);
    TableIsPrefixCode(Build(q));
    TotalOfTable(Build(q), [], TableOf(Build(q), []));
    InternalIsMinimal(q, m);
  }

  // ---------- Leaves that count nothing ----------

  /** How often the leaves of t with text s are counted. */
  function Weight(s: string, t: Tree): nat {
    match t
    case Leaf(c, text) => if text == s then c else 0
    case Node(l, r) => Weight(s, l) + Weight(s, r)
  }

  /** The tree without its leaves of count zero, each inner node replaced by its only used child. */
  function Prune(t: Tree): (p: Tree)
    ensures p.Texts() <= t.Texts() && p.Cnt() == t.Cnt()
  {
    match t
    case Leaf(_, _) => t
    case Node(l, r) =>
      if l.Cnt() == 0 then Prune(r) else if r.Cnt() == 0 then Prune(l) else Node(Prune(l), Prune(r))
  }

  lemma {:induction false} WeightWithin(s: string, t: Tree)
    ensures Weight(s, t) <= t.Cnt()
    ensures s !in t.Texts() ==> Weight(s, t) == 0
  {
    if t.Node? {
      WeightWithin(s, t.left);
      WeightWithin(s, t.right);
    }
  }

  lemma {:induction false} PruneIsDistinct(t: Tree)
    requires Distinct(t)
    ensures Distinct(Prune(t))
  {
    if t.Node? {
      PruneIsDistinct(t.left);
      PruneIsDistinct(t.right);
    }
  }

  lemma {:induction false} PruneKeepsUsed(t: Tree, s: string)
    requires t.Cnt() > 0
    ensures s in Prune(t).Texts() <==> Weight(s, t) > 0
  {
    if t.Node? {
      WeightWithin(s, t.left);
      WeightWithin(s, t.right);
      if t.left.Cnt() > 0 { PruneKeepsUsed(t.left, s); }
      if t.right.Cnt() > 0 { PruneKeepsUsed(t.right, s); }
    }
  }

  lemma {:induction false} UnusedTotal(t: Tree, m: map<string, Code>)
    requires t.Cnt() == 0
    ensures Total(t, m) == 0
  {
    if t.Node? {
      UnusedTotal(t.left, m);
      UnusedTotal(t.right, m);
    }
  }

  lemma {:induction false} PruneKeepsTotal(t: Tree, m: map<string, Code>)
    ensures Total(Prune(t), m) == Total(t, m)
  {
    if t.Node? {
      PruneKeepsTotal(t.left, m);
      PruneKeepsTotal(t.right, m);
      if t.left.Cnt() == 0 { UnusedTotal(t.left, m); }
      if t.right.Cnt() == 0 { UnusedTotal(t.right, m); }
    }
  }

  lemma {:induction false} PruneNeverCosts(t: Tree)
    ensures Internal(Prune(t)) <= Internal(t)
  {
    if t.Node? {
      PruneNeverCosts(t.left);
      PruneNeverCosts(t.right);
    }
  }

  /** A leaf that counts nothing makes the inner weights strictly larger than they need to be. */
  lemma {:induction false} PruneSaves(t: Tree, s: string)
    requires t.Cnt() > 0 && s in t.Texts() && Weight(s, t) == 0
    ensures Internal(Prune(t)) < Internal(t)
  {
    if t.Node? {
      PruneNeverCosts(t.left);
      PruneNeverCosts(t.right);
      if t.left.Cnt() > 0 && t.right.Cnt() > 0 {
        PruneSaves(if s in t.left.Texts() then t.left else t.right, s);
      }
    }
  }
}

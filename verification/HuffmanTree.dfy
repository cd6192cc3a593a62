/**
  The tree of hftree.h and the greedy merge loop of hftree.cpp as a function on the contents
  of the priority queue.
 */
module HuffmanTree {

  datatype Tree = Leaf(cnt: nat, text: string) | Node(left: Tree, right: Tree) {
    function Cnt(): nat {
      match this
      case Leaf(c, _) => c
      case Node(l, r) => l.Cnt() + r.Cnt()
    }

    /** smallNode->text: the lexicographically smallest text below this node. */
    function Small(): string {
      match this
      case Leaf(_, t) => t
      case Node(l, r) => if LexLess(l.Small(), r.Small()) then l.Small() else r.Small()
    }

    function Texts(): set<string> {
      match this
      case Leaf(_, t) => {t}
      case Node(l, r) => l.Texts() + r.Texts()
    }
  }

  /** operator< on std::string */
  predicate LexLess(s: string, t: string) {
    if |t| == 0 then false
    else if |s| == 0 then true
    else s[0] < t[0] || (s[0] == t[0] && LexLess(s[1..], t[1..]))
  }

  /** hfNode::operator< */
  predicate Less(a: Tree, b: Tree) {
    a.Cnt() < b.Cnt() || (a.Cnt() == b.Cnt() && LexLess(a.Small(), b.Small()))
  }

  /** The constructor of an inner node: the smaller child goes left. */
  function Merge(a: Tree, b: Tree): Tree {
    if Less(a, b) then Node(a, b) else Node(b, a)
  }

  // ---------- The priority queue ----------

  function Remove<T>(s: seq<T>, i: nat): seq<T>
    requires i < |s|
  {
    s[..i] + s[i + 1..]
  }

  /** The position of the queue's top: no later element is smaller, every earlier one is not. */
  function Top(q: seq<Tree>): (i: nat)
    requires |q| > 0
    ensures i < |q|
    ensures forall k | 0 <= k < |q| :: q[i].Cnt() <= q[k].Cnt()
  {
    if |q| == 1 then 0
    else
      var i := Top(q[..|q| - 1]);
      if Less(q[|q| - 1], q[i]) then |q| - 1 else i
  }

  /** One round: pop two nodes, push their parent. */
  function Step(q: seq<Tree>): (q': seq<Tree>)
    requires |q| > 1
    ensures |q'| == |q| - 1
  {
    var i := Top(q);
    var q1 := Remove(q, i);
    var j := Top(q1);
    Remove(q1, j) + [Merge(q[i], q1[j])]
  }

  /** The root left when only one node is queued. */
  function Build(q: seq<Tree>): Tree
    requires |q| > 0
    decreases |q|
  {
    if |q| == 1 then q[0] else Build(Step(q))
  }

  // ---------- Sums over a forest ----------

  function Sum(f: Tree -> nat, q: seq<Tree>): nat {
    if |q| == 0 then 0 else f(q[0]) + Sum(f, q[1..])
  }

  lemma {:induction false} SumAppend(f: Tree -> nat, q: seq<Tree>, r: seq<Tree>)
    ensures Sum(f, q + r) == Sum(f, q) + Sum(f, r)
  {
    if |q| == 0 {
      assert q + r == r;
    } else {
      assert (q + r)[1..] == q[1..] + r;
      SumAppend(f, q[1..], r);
    }
  }

  lemma {:induction false} SumRemove(f: Tree -> nat, q: seq<Tree>, i: nat)
    requires i < |q|
    ensures Sum(f, q) == f(q[i]) + Sum(f, Remove(q, i))
  {
    SumCons(f, q[i], q[i + 1..]);
    hide Sum;
    assert q == q[..i] + ([q[i]] + q[i + 1..]);
    SumAppend(f, q[..i], [q[i]] + q[i + 1..]);
    SumAppend(f, q[..i], q[i + 1..]);
  }

  lemma SumCons(f: Tree -> nat, t: Tree, q: seq<Tree>)
    ensures Sum(f, [t] + q) == f(t) + Sum(f, q)
  {
    assert ([t] + q)[1..] == q;
  }

  /** A quantity that a merge does not change is the same for the whole queue and for the root. */
  lemma {:induction false} BuildKeepsSum(f: Tree -> nat, q: seq<Tree>)
    requires |q| > 0
    requires forall a, b :: f(Node(a, b)) == f(a) + f(b)
    ensures f(Build(q)) == Sum(f, q)
    decreases |q|
  {
    if |q| > 1 {
      var i := Top(q);
      var q1 := Remove(q, i);
      var j := Top(q1);
      SumRemove(f, q, i);
      SumRemove(f, q1, j);
      SumAppend(f, Remove(q1, j), [Merge(q[i], q1[j])]);
      BuildKeepsSum(f, Step(q));
    }
  }

  // ---------- The order inside the queue does not matter ----------

  lemma {:induction false} LexTotal(s: string, t: string)
    ensures LexLess(s, t) || LexLess(t, s) || s == t
    ensures !(LexLess(s, t) && LexLess(t, s))
    ensures !LexLess(s, s)
  {
    if |s| > 0 && |t| > 0 {
      LexTotal(s[1..], t[1..]);
      LexTotal(s[1..], s[1..]);
      assert s == [s[0]] + s[1..] && t == [t[0]] + t[1..];
    } else if |s| > 0 {
      LexTotal(s[1..], s[1..]);
    }
  }

  lemma {:induction false} LexTransitive(s: string, t: string, u: string)
    requires LexLess(s, t) && LexLess(t, u)
    ensures LexLess(s, u)
  {
    if |s| > 0 && s[0] == t[0] == u[0] { LexTransitive(s[1..], t[1..], u[1..]); }
  }

  /** Different queued nodes have different smallest texts, and no node is queued twice. */
  ghost predicate Ranked(m: multiset<Tree>) {
    && (forall a | a in m :: m[a] == 1)
    && forall a, b | a in m && b in m && a != b :: a.Small() != b.Small()
  }

  lemma RemoveMultiset<T>(s: seq<T>, i: nat)
    requires i < |s|
    ensures multiset(Remove(s, i)) == multiset(s) - multiset{s[i]}
  {
    assert s == s[..i] + ([s[i]] + s[i + 1..]);
  }

  lemma RankedPositions(q: seq<Tree>, j: nat, k: nat)
    requires j < |q| && k < |q| && j != k && Ranked(multiset(q))
    ensures q[j].Small() != q[k].Small()
  {
    RemoveMultiset(q, k);
    assert q[j] == Remove(q, k)[if j < k then j else j - 1];
    assert q[j] in multiset(Remove(q, k)) && q[k] in multiset(q);
    assert multiset(q)[q[k]] == 1;
  }

  lemma {:induction false} TopIsSmallest(q: seq<Tree>, k: nat)
    requires k < |q| && k != Top(q)
    requires forall j, k | 0 <= j < k < |q| :: q[j].Small() != q[k].Small()
    ensures Less(q[Top(q)], q[k])
  {
    var last := |q| - 1;
    var i := Top(q[..last]);
    LexTotal(q[last].Small(), q[i].Small());
    if k < last && k != i {
      TopIsSmallest(q[..last], k);
      if Less(q[last], q[i]) && q[last].Cnt() == q[k].Cnt() {
        LexTransitive(q[last].Small(), q[i].Small(), q[k].Small());
      }
    }
  }

  lemma TopIsBelow(q: seq<Tree>, x: Tree)
    requires |q| > 0 && x in q && Ranked(multiset(q))
    ensures x == q[Top(q)] || Less(q[Top(q)], x)
  {
    var k :| 0 <= k < |q| && q[k] == x;
    if k != Top(q) {
      hide Top, Less, LexLess, Ranked;
      forall i, j | 0 <= i < j < |q| ensures q[i].Small() != q[j].Small() { RankedPositions(q, i, j); }
      TopIsSmallest(q, k);
    }
  }

  /** Two queues with the same nodes have the same node on top. */
  lemma SameTop(q: seq<Tree>, r: seq<Tree>)
    requires |q| > 0 && multiset(q) == multiset(r) && Ranked(multiset(q))
    ensures |r| == |q| && q[Top(q)] == r[Top(r)]
  {
    hide Top, LexLess, Ranked, Tree.Small, Tree.Cnt;
    assert |q| == |multiset(q)| && |r| == |multiset(r)|;
    var a, b := q[Top(q)], r[Top(r)];
    assert a in multiset(q) && b in multiset(r);
    assert a in r && b in q;
    TopIsBelow(q, b);
    TopIsBelow(r, a);
    LexTotal(a.Small(), b.Small());
  }

  lemma SubsetRanked(m: multiset<Tree>, m': multiset<Tree>)
    requires Ranked(m) && m' <= m
    ensures Ranked(m')
  {
    forall x | x in m' ensures m'[x] == 1 { assert m[x] == 1; }
  }

  /** The popped node and what stays queued. */
  lemma SamePop(q: seq<Tree>, r: seq<Tree>)
    requires |q| > 0 && multiset(q) == multiset(r) && Ranked(multiset(q))
    ensures |r| == |q| && q[Top(q)] == r[Top(r)]
    ensures multiset(Remove(q, Top(q))) == multiset(Remove(r, Top(r)))
    ensures multiset(Remove(q, Top(q))) + multiset{q[Top(q)]} == multiset(q)
    ensures Ranked(multiset(Remove(q, Top(q))))
  {
    hide *;
    SameTop(q, r);
    RemoveMultiset(q, Top(q));
    RemoveMultiset(r, Top(r));
    PutBack(multiset(q), q[Top(q)]);
    SubsetRanked(multiset(q), multiset(Remove(q, Top(q))));
  }

  lemma PutBack(m: multiset<Tree>, a: Tree)
    requires a in m
    ensures m - multiset{a} + multiset{a} == m && m - multiset{a} <= m
  {
  }

  lemma PutTwoBack(m: multiset<Tree>, b: Tree, m1: multiset<Tree>, a: Tree, m0: multiset<Tree>)
    requires m + multiset{b} == m1 && m1 + multiset{a} == m0
    ensures m + multiset{a, b} == m0
  {
  }

  lemma MergeStaysRanked(m: multiset<Tree>, a: Tree, b: Tree)
    requires Ranked(m + multiset{a, b})
    ensures Ranked(m + multiset{Merge(a, b)})
  {
    var was, top := m + multiset{a, b}, Merge(a, b);
    LexTotal(a.Small(), b.Small());
    assert top.Small() == a.Small() || top.Small() == b.Small();
    forall x | x in m ensures x.Small() != top.Small() && m[x] == 1 {
      assert x in was && a in was && b in was;
      assert was[x] == 1;
      assert x != a && x != b;
    }
  }

  lemma SameStep(q: seq<Tree>, r: seq<Tree>)
    requires |q| > 1 && multiset(q) == multiset(r) && Ranked(multiset(q))
    ensures |r| == |q| && multiset(Step(q)) == multiset(Step(r)) && Ranked(multiset(Step(q)))
  {
    SamePop(q, r);
    var q1, r1 := Remove(q, Top(q)), Remove(r, Top(r));
    SamePop(q1, r1);
    var a, b := q[Top(q)], q1[Top(q1)];
    var rest, rest' := Remove(q1, Top(q1)), Remove(r1, Top(r1));
    assert Step(q) == rest + [Merge(a, b)] && Step(r) == rest' + [Merge(a, b)];
    hide *;
    PutTwoBack(multiset(rest), b, multiset(q1), a, multiset(q));
    MergeStaysRanked(multiset(rest), a, b);
  }

  /**
    However the priority queue arranges its nodes, the same leaves give the same tree: popping
    the smallest node twice is all that the merge loop depends on.
   */
  lemma {:induction false} TreeDependsOnLeavesOnly(q: seq<Tree>, r: seq<Tree>)
    requires |q| > 0 && multiset(q) == multiset(r) && Ranked(multiset(q))
    ensures |r| == |q| && Build(q) == Build(r)
    decreases |q|
  {
    assert |q| == |multiset(q)| && |r| == |multiset(r)|;
    if |q| > 1 {
      SameStep(q, r);
      TreeDependsOnLeavesOnly(Step(q), Step(r));
    } else {
      assert q[0] in multiset(r);
    }
  }
}

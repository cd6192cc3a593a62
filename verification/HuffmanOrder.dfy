/**
  Which of several optimal trees the constructor builds: at every inner node the side of the 0 counts
  less, or as much and holds the text that comes first.
 */
module HuffmanOrder {
  import opened Bytes
  import opened BitPacking
  import opened Powers
  import opened HuffmanTree
  import opened HuffmanOptimal
  import opened HuffmanCode
  import opened HuffmanText
  import F = HuffmanFormat

  // ---------- The order of texts ----------

  /** s and t begin alike, and then s ends or goes on with the smaller character. */
  ghost predicate ComesFirst(s: string, t: string) {
    exists k: nat :: k <= |s| && k < |t| && s[..k] == t[..k] && (k == |s| || s[k] < t[k])
  }

  lemma {:induction false} LexLessIff(s: string, t: string)
    ensures LexLess(s, t) <==> ComesFirst(s, t)
  {
    if |s| > 0 && |t| > 0 {
      LexLessIff(s[1..], t[1..]);
      if s[0] == t[0] {
        if ComesFirst(s[1..], t[1..]) {
          var k: nat :| k <= |s[1..]| && k < |t[1..]| && s[1..][..k] == t[1..][..k] && (k == |s[1..]| || s[1..][k] < t[1..][k]);
          assert s[..k + 1] == [s[0]] + s[1..][..k] && t[..k + 1] == [t[0]] + t[1..][..k];
          assert k + 1 <= |s| && k + 1 < |t| && (k + 1 == |s| || s[k + 1] < t[k + 1]);
        }
        if ComesFirst(s, t) {
          var k: nat :| k <= |s| && k < |t| && s[..k] == t[..k] && (k == |s| || s[k] < t[k]);
          assert k > 0;
          assert s[1..][..k - 1] == s[..k][1..] && t[1..][..k - 1] == t[..k][1..];
          assert k - 1 <= |s[1..]| && k - 1 < |t[1..]| && (k - 1 == |s[1..]| || s[1..][k - 1] < t[1..][k - 1]);
        }
      } else {
        FirstCharacters(s, t);
      }
    } else if |t| > 0 {
      assert s[..0] == t[..0];
    }
  }

  lemma FirstCharacters(s: string, t: string)
    requires |s| > 0 && |t| > 0 && s[0] != t[0]
    ensures ComesFirst(s, t) <==> s[0] < t[0]
  {
    assert s[..0] == t[..0];
    forall k: nat | 0 < k <= |s| && k <= |t| ensures s[..k] != t[..k] {
      assert s[..k][0] == s[0] && t[..k][0] == t[0];
    }
  }

  lemma {:induction false} SmallIsFirst(t: Tree)
    ensures t.Small() in t.Texts()
    ensures forall s | s in t.Texts() :: s == t.Small() || LexLess(t.Small(), s)
  {
    if t.Node? {
      SmallIsFirst(t.left);
      SmallIsFirst(t.right);
      var a, b := t.left.Small(), t.right.Small();
      LexTotal(a, b);
      forall s | s in t.Texts() ensures s == t.Small() || LexLess(t.Small(), s) {
        if s in t.left.Texts() && s != a && LexLess(b, a) { LexTransitive(b, a, s); }
        if s in t.right.Texts() && s != b && LexLess(a, b) { LexTransitive(a, b, s); }
      }
    }
  }

  // ---------- The sides of the inner nodes ----------

  /** All texts of b come after some text of a. */
  ghost predicate BeginsBefore(a: Tree, b: Tree) {
    exists s | s in a.Texts() :: forall r | r in b.Texts() :: ComesFirst(s, r)
  }

  /** At every inner node the left side counts less, or as much and begins before the right one. */
  ghost predicate SmallerLeft(t: Tree) {
    t.Node? ==>
      && SmallerLeft(t.left) && SmallerLeft(t.right)
      && (t.left.Cnt() < t.right.Cnt() || (t.left.Cnt() == t.right.Cnt() && BeginsBefore(t.left, t.right)))
  }

  lemma SmallDecides(a: Tree, b: Tree)
    requires LexLess(a.Small(), b.Small())
    ensures BeginsBefore(a, b)
  {
    SmallIsFirst(a);
    SmallIsFirst(b);
    forall r | r in b.Texts() ensures ComesFirst(a.Small(), r) {
      if r != b.Small() { LexTransitive(a.Small(), b.Small(), r); }
      LexLessIff(a.Small(), r);
    }
  }

  lemma MergePutsSmallerLeft(a: Tree, b: Tree)
    requires SmallerLeft(a) && SmallerLeft(b) && a.Small() != b.Small()
    ensures SmallerLeft(Merge(a, b))
  {
    LexTotal(a.Small(), b.Small());
    hide LexLess, BeginsBefore, Tree.Small, Tree.Cnt;
    if LexLess(a.Small(), b.Small()) { SmallDecides(a, b); } else { SmallDecides(b, a); }
  }

  lemma InRest(q: seq<Tree>, i: nat, t: Tree)
    requires i < |q| && t in Remove(q, i)
    ensures t in q
  {
  }

  lemma {:induction false} BuildPutsSmallerLeft(q: seq<Tree>)
    requires |q| > 0 && Ranked(multiset(q)) && forall t | t in q :: SmallerLeft(t)
    ensures SmallerLeft(Build(q))
    decreases |q|
  {
    hide SmallerLeft, Ranked, Top, Merge;
    if |q| > 1 {
      var i := Top(q);
      var q1 := Remove(q, i);
      var j := Top(q1);
      SameStep(q, q);
      SamePop(q, q);
      RankedApart(q, q1, j);
      InRest(q, i, q1[j]);
      MergePutsSmallerLeft(q[i], q1[j]);
      forall t | t in Step(q) ensures SmallerLeft(t) {
        if t != Merge(q[i], q1[j]) {
          InRest(q1, j, t);
          InRest(q, i, t);
        }
      }
      BuildPutsSmallerLeft(Step(q));
    }
  }

  /** The two popped nodes have different smallest texts. */
  lemma RankedApart(q: seq<Tree>, q1: seq<Tree>, j: nat)
    requires |q| > 0 && Ranked(multiset(q)) && j < |q1| && multiset(q1) + multiset{q[Top(q)]} == multiset(q)
    ensures q[Top(q)].Small() != q1[j].Small()
  {
    var m, a, b := multiset(q), q[Top(q)], q1[j];
    assert b in multiset(q1) && a in m && b in m;
    assert m[a] == multiset(q1)[a] + 1;
  }

  lemma {:induction false} LeavesAreRanked(q: seq<Tree>)
    requires AreLeaves(q)
    ensures Ranked(multiset(q)) && forall t | t in q :: t.Leaf? && t.text in QueueTexts(q)
  {
    if |q| > 0 {
      var rest := q[1..];
      LeavesAreRanked(rest);
      assert q == [q[0]] + rest;
      assert multiset(q) == multiset{q[0]} + multiset(rest);
      forall t | t in q ensures t.Leaf? && t.text in QueueTexts(q) {
        assert t == q[0] || t in rest;
      }
      forall a | a in multiset(q) ensures multiset(q)[a] == 1 {
        assert a == q[0] || a in rest;
        assert q[0] !in rest;
      }
      forall a, b | a in multiset(q) && b in multiset(q) && a != b ensures a.Small() != b.Small() {
        assert (a == q[0] || a in multiset(rest)) && (b == q[0] || b in multiset(rest));
        assert a in rest || a == q[0];
        assert b in rest || b == q[0];
      }
    }
  }

  /** The tree of the constructor has its smaller sides on the left. */
  lemma RootPutsSmallerLeft(order: seq<string>, tokens: seq<string>)
    requires NoRepeats(order) && |order| > 0
    ensures SmallerLeft(RootOf(order, tokens))
  {
    var q := LeavesFor(order, tokens);
    LeavesForAreLeaves(order, tokens);
    LeavesAreRanked(q);
    assert forall t | t in q :: SmallerLeft(t);
    hide SmallerLeft, Build, LeavesFor, Ranked;
    BuildPutsSmallerLeft(q);
  }

  /** The bit at the place of an inner node tells on which side the text is: 0 is left. */
  lemma BitTellsSide(t: Tree, code: Code, s: string)
    requires t.Node? && Distinct(t) && s in t.Texts()
    ensures s in TableOf(t, code) && |TableOf(t, code)[s]| > |code|
    ensures TableOf(t, code)[s][|code|] <==> s in t.right.Texts()
    ensures TableOf(t, code)[s][|code|] <==> s !in t.left.Texts()
  {
    TableKeys(t, code);
    TableKeys(t.left, code + [false]);
    TableKeys(t.right, code + [true]);
  }

  // ---------- An example ----------

  lemma AabTokens()
    ensures Tokens({}, "aab") == ["a", "a", "b"]
  {
    assert "aab"[1..] == "ab" && "ab"[1..] == "b" && "b"[1..] == "";
    assert "aab"[..1] == "a" && "ab"[..1] == "a" && "b"[..1] == "b";
    FirstToken({}, "aab");
    FirstToken({}, "ab");
    FirstToken({}, "b");
  }

  lemma AabCounts()
    ensures Count(["a", "a", "b"], "a") == 2 && Count(["a", "a", "b"], "b") == 1
  {
    assert ["a", "a", "b"][1..] == ["a", "b"] && ["a", "b"][1..] == ["b"] && ["b"][1..] == [];
  }

  lemma AabTree(order: seq<string>)
    requires order == ["a", "b"] || order == ["b", "a"]
    ensures RootOf(order, ["a", "a", "b"]) == Node(Leaf(1, "b"), Leaf(2, "a"))
  {
    AabCounts();
    var q := LeavesFor(order, ["a", "a", "b"]);
    assert q == [Leaf(2, "a"), Leaf(1, "b")] || q == [Leaf(1, "b"), Leaf(2, "a")];
    hide LeavesFor, Count;
    assert Step(q) == [Node(Leaf(1, "b"), Leaf(2, "a"))];
  }

  lemma AabLength()
    ensures LeBytes(3, 8) == [3, 0, 0, 0, 0, 0, 0, 0]
  {
    assert LeBytes(0, 4) == [0, 0, 0, 0];
    assert LeBytes(0, 7) == [0, 0, 0] + LeBytes(0, 4);
    assert LeBytes(3, 8) == [3] + LeBytes(0, 7);
  }

  lemma AabBits()
    ensures Pack([true, true, false]) == [0xC0]
  {
    var bits := [true, true, false];
    assert bits[..2] == [true, true] && [true, true][..1] == [true];
    assert Value(bits) == 2 * Value([true, true]) && Value([true, true]) == 2 * Value([true]) + 1;
    ValuePadded(bits, 5);
    assert Pow2(5) == 32;
  }

  lemma AabCodes()
    ensures TableOf(Node(Leaf(1, "b"), Leaf(2, "a")), []) == map["a" := [true], "b" := [false]]
    ensures Encode(map["a" := [true], "b" := [false]], ["a", "a", "b"]) == [true, true, false]
  {
    assert [] + [false] == [false] && [] + [true] == [true];
    assert ["a", "a", "b"][1..] == ["a", "b"] && ["a", "b"][1..] == ["b"] && ["b"][1..] == [];
    var table := map["a" := [true], "b" := [false]];
    assert Encode(table, ["b"]) == [false] + Encode(table, []);
  }

  lemma AabPacked()
    ensures F.Packed([true, true, false]) == [3, 0, 0, 0, 0, 0, 0, 0, 0xC0]
  {
    AabLength();
    AabBits();
    hide LeBytes, Pack;
  }

  lemma AabLines()
    ensures F.Line(F.Entry("a", [true])) == "a 1\n" && F.Line(F.Entry("b", [false])) == "b 0\n"
  {
    assert F.Digits([true]) == "1" && F.Digits([false]) == "0";
    hide F.Digits;
  }

  /** The text aab in single characters: the code of b is 0 and that of a is 1; six bits are filled up to a byte. */
  lemma AabIs(order: seq<string>)
    requires order == ["a", "b"] || order == ["b", "a"]
    ensures Tokens({}, "aab") == ["a", "a", "b"]
    ensures TableOf(RootOf(order, ["a", "a", "b"]), []) == map["a" := [true], "b" := [false]]
    ensures Encode(map["a" := [true], "b" := [false]], ["a", "a", "b"]) == [true, true, false]
    ensures F.Packed([true, true, false]) == [3, 0, 0, 0, 0, 0, 0, 0, 0xC0]
    ensures F.Line(F.Entry("a", [true])) == "a 1\n" && F.Line(F.Entry("b", [false])) == "b 0\n"
  {
    hide *;
    AabTokens();
    AabTree(order);
    AabPacked();
    AabCodes();
    AabLines();
  }
}

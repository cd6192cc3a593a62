/**
  From a text to its compressed bits and back: the greedy one- or two-character tokeniser, the
  leaf queue of the token counts, minimality of the compressed length, and decoding by walking
  the tree.
 */
module HuffmanText {
  import opened HuffmanTree
  import opened HuffmanOptimal
  import opened HuffmanCode

  // ---------- The tokeniser ----------

  /** Take two characters where they form a key, otherwise one. */
  function Tokens(keys: set<string>, text: string): seq<string> {
    if |text| == 0 then []
    else if |text| > 1 && text[..2] in keys then [text[..2]] + Tokens(keys, text[2..])
    else [text[..1]] + Tokens(keys, text[1..])
  }

  function Concat(tokens: seq<string>): string {
    if |tokens| == 0 then "" else tokens[0] + Concat(tokens[1..])
  }

  function Elements(tokens: seq<string>): set<string> {
    set k | k in tokens
  }

  lemma {:induction false} TokensSpellText(keys: set<string>, text: string)
    ensures Concat(Tokens(keys, text)) == text
    ensures forall k | k in Tokens(keys, text) :: |k| == 1 || (|k| == 2 && k in keys)
  {
    if |text| > 1 && text[..2] in keys {
      TokensSpellText(keys, text[2..]);
      assert Tokens(keys, text)[1..] == Tokens(keys, text[2..]);
      assert text == text[..2] + text[2..];
    } else if |text| > 0 {
      TokensSpellText(keys, text[1..]);
      assert Tokens(keys, text)[1..] == Tokens(keys, text[1..]);
      assert text == text[..1] + text[1..];
    }
  }

  lemma Shifted(text: string, m: nat, n: nat, l: nat)
    requires m + n + l <= |text|
    ensures text[m..][n..n + l] == text[m + n..m + n + l]
  {
  }

  lemma FirstToken(keys: set<string>, text: string)
    requires |text| > 0
    ensures var m := if |text| > 1 && text[..2] in keys then 2 else 1;
      Tokens(keys, text) == [text[..m]] + Tokens(keys, text[m..])
  {
  }

  /** A token has two characters exactly if the two that follow the tokens before it are a key. */
  lemma {:induction false} TokensAreGreedy(keys: set<string>, text: string, done: seq<string>, x: string, rest: seq<string>)
    requires Tokens(keys, text) == done + ([x] + rest)
    ensures var n := |Concat(done)|;
      && n + |x| <= |text| && x == text[n..n + |x|] && (|x| == 1 || |x| == 2)
      && (|x| == 2 <==> n + 2 <= |text| && text[n..n + 2] in keys)
    decreases |done|
  {
    assert |text| > 0;
    FirstToken(keys, text);
    hide Tokens;
    var m := if |text| > 1 && text[..2] in keys then 2 else 1;
    var all := [text[..m]] + Tokens(keys, text[m..]);
    if |done| == 0 {
      assert x == all[0];
    } else {
      assert done[0] == all[0] && all[1..] == done[1..] + ([x] + rest);
      TokensAreGreedy(keys, text[m..], done[1..], x, rest);
      var n := |Concat(done[1..])|;
      assert |Concat(done)| == m + n;
      Shifted(text, m, n, |x|);
      if m + n + 2 <= |text| { Shifted(text, m, n, 2); }
    }
  }

  /** Only the two-character keys steer the tokeniser. */
  lemma {:induction false} SamePairsSameTokens(keys: set<string>, keys': set<string>, text: string)
    requires forall k | |k| == 2 :: k in keys <==> k in keys'
    ensures Tokens(keys, text) == Tokens(keys', text)
  {
    if |text| > 1 && text[..2] in keys {
      SamePairsSameTokens(keys, keys', text[2..]);
    } else if |text| > 0 {
      SamePairsSameTokens(keys, keys', text[1..]);
    }
  }

  predicate ArePairs(pairs: set<string>) {
    forall k | k in pairs :: |k| == 2
  }

  /** The keys of the code table: the chosen pairs and every token that occurs. */
  function Keys(pairs: set<string>, text: string): set<string> {
    pairs + Elements(Tokens(pairs, text))
  }

  /** compress, which looks the pairs up in the finished table, cuts the text as the constructor did. */
  lemma TableGivesSameTokens(pairs: set<string>, text: string)
    requires ArePairs(pairs)
    ensures Tokens(Keys(pairs, text), text) == Tokens(pairs, text)
    ensures Elements(Tokens(pairs, text)) <= Keys(pairs, text)
  {
    TokensSpellText(pairs, text);
    SamePairsSameTokens(pairs, Keys(pairs, text), text);
  }

  // ---------- Counts ----------

  function Count(tokens: seq<string>, k: string): nat {
    if |tokens| == 0 then 0 else (if tokens[0] == k then 1 else 0) + Count(tokens[1..], k)
  }

  lemma {:induction false} CountIn(tokens: seq<string>, k: string)
    ensures Count(tokens, k) > 0 <==> k in tokens
  {
    if |tokens| > 0 {
      CountIn(tokens[1..], k);
      assert tokens == [tokens[0]] + tokens[1..];
    }
  }

  lemma {:induction false} CountSnoc(tokens: seq<string>, x: string, k: string)
    ensures Count(tokens + [x], k) == Count(tokens, k) + if x == k then 1 else 0
  {
    if |tokens| > 0 {
      CountSnoc(tokens[1..], x, k);
      assert (tokens + [x])[1..] == tokens[1..] + [x];
    }
  }

  predicate NoRepeats(order: seq<string>) {
    |order| == 0 || (order[0] !in order[1..] && NoRepeats(order[1..]))
  }

  /** One leaf per key, in the order in which the map is walked. */
  function LeavesFor(order: seq<string>, tokens: seq<string>): (q: seq<Tree>)
    ensures |q| == |order|
    ensures forall k | 0 <= k < |q| :: q[k] == Leaf(Count(tokens, order[k]), order[k])
  {
    if |order| == 0 then [] else [Leaf(Count(tokens, order[0]), order[0])] + LeavesFor(order[1..], tokens)
  }

  lemma {:induction false} LeavesForAreLeaves(order: seq<string>, tokens: seq<string>)
    requires NoRepeats(order)
    ensures AreLeaves(LeavesFor(order, tokens))
    ensures QueueTexts(LeavesFor(order, tokens)) == Elements(order)
  {
    if |order| > 0 {
      LeavesForAreLeaves(order[1..], tokens);
      assert order == [order[0]] + order[1..];
      assert LeavesFor(order, tokens)[1..] == LeavesFor(order[1..], tokens);
    }
  }

  // ---------- The compressed length ----------

  function Encode(m: map<string, Code>, tokens: seq<string>): Code
    requires forall k | k in tokens :: k in m
  {
    if |tokens| == 0 then [] else m[tokens[0]] + Encode(m, tokens[1..])
  }

  lemma {:induction false} EncodeSnoc(m: map<string, Code>, tokens: seq<string>, x: string)
    requires x in m && forall k | k in tokens :: k in m
    ensures Encode(m, tokens + [x]) == Encode(m, tokens) + m[x]
  {
    if |tokens| > 0 {
      EncodeSnoc(m, tokens[1..], x);
      assert (tokens + [x])[1..] == tokens[1..] + [x];
    }
  }

  lemma {:induction false} OneMoreToken(order: seq<string>, x: string, tokens: seq<string>, m: map<string, Code>)
    requires NoRepeats(order) && x in m
    ensures var total := t => Total(t, m);
      Sum(total, LeavesFor(order, [x] + tokens)) ==
      Sum(total, LeavesFor(order, tokens)) + if x in order then |m[x]| else 0
  {
    if |order| > 0 {
      assert order == [order[0]] + order[1..];
      OneMoreToken(order[1..], x, tokens, m);
      OneMoreCount(tokens, x, order[0], if order[0] in m then |m[order[0]]| else 0);
      var q, q' := LeavesFor(order, tokens), LeavesFor(order, [x] + tokens);
      assert q[1..] == LeavesFor(order[1..], tokens) && q'[1..] == LeavesFor(order[1..], [x] + tokens);
    }
  }

  lemma OneMoreCount(tokens: seq<string>, x: string, k: string, n: nat)
    ensures Count([x] + tokens, k) * n == Count(tokens, k) * n + if x == k then n else 0
  {
    assert ([x] + tokens)[1..] == tokens;
    if x == k { assert (1 + Count(tokens, k)) * n == n + Count(tokens, k) * n; }
  }

  /** The number of bits written for the tokens is the total of count times code length. */
  lemma {:induction false} LengthIsTotal(order: seq<string>, tokens: seq<string>, m: map<string, Code>)
    requires NoRepeats(order) && Elements(tokens) <= m.Keys && Elements(tokens) <= Elements(order)
    ensures forall k | k in tokens :: k in m
    ensures |Encode(m, tokens)| == Sum(t => Total(t, m), LeavesFor(order, tokens))
  {
    forall k | k in tokens ensures k in m { assert k in Elements(tokens); }
    if |tokens| == 0 {
      NothingCounted(order, m);
    } else {
      assert tokens == [tokens[0]] + tokens[1..];
      assert tokens[0] in Elements(tokens);
      LengthIsTotal(order, tokens[1..], m);
      OneMoreToken(order, tokens[0], tokens[1..], m);
    }
  }

  lemma {:induction false} NothingCounted(order: seq<string>, m: map<string, Code>)
    ensures Sum(t => Total(t, m), LeavesFor(order, [])) == 0
  {
    if |order| > 0 {
      NothingCounted(order[1..], m);
      assert LeavesFor(order, [])[1..] == LeavesFor(order[1..], []);
    }
  }

  /** The tree that the constructor builds when its map is walked in the given order. */
  function RootOf(order: seq<string>, tokens: seq<string>): Tree
    requires |order| > 0
  {
    Build(LeavesFor(order, tokens))
  }

  /**
    The text compressed with the built table is no longer than with any prefix-free code for the
    same keys, and its length is the sum of the inner node weights.
   */
  lemma CompressionIsMinimal(order: seq<string>, tokens: seq<string>, m: map<string, Code>)
    requires NoRepeats(order) && |order| > 0 && Elements(tokens) <= Elements(order)
    requires IsPrefixCode(m, Elements(order))
    ensures var t := RootOf(order, tokens); var table := TableOf(t, []);
      && table.Keys == Elements(order) && IsPrefixCode(table, Elements(order))
      && (forall k | k in tokens :: k in table && k in m)
      && |Encode(table, tokens)| == Internal(t) <= |Encode(m, tokens)|
  {
    var q := LeavesFor(order, tokens);
    var t := RootOf(order, tokens);
    LeavesForAreLeaves(order, tokens);
    TableIsOptimal(q, m);
    assert Elements(order) <= m.Keys;
    hide *;
    LengthIsTotal(order, tokens, TableOf(t, []));
    LengthIsTotal(order, tokens, m);
    KeepsTotal(q, m);
    KeepsTotal(q, TableOf(t, []));
  }

  // ---------- Keys that are never used ----------

  lemma CountsInTree(order: seq<string>, tokens: seq<string>, s: string)
    requires NoRepeats(order) && |order| > 0
    ensures Weight(s, RootOf(order, tokens)) == if s in order then Count(tokens, s) else 0
  {
    BuildKeepsSum(t => Weight(s, t), LeavesFor(order, tokens));
    CountsInLeaves(order, tokens, s);
  }

  lemma {:induction false} CountsInLeaves(order: seq<string>, tokens: seq<string>, s: string)
    requires NoRepeats(order)
    ensures Sum(t => Weight(s, t), LeavesFor(order, tokens)) == if s in order then Count(tokens, s) else 0
  {
    if |order| > 0 {
      assert order == [order[0]] + order[1..];
      assert LeavesFor(order, tokens)[1..] == LeavesFor(order[1..], tokens);
      CountsInLeaves(order[1..], tokens, s);
    }
  }

  lemma UsedKeys(order: seq<string>, tokens: seq<string>)
    requires NoRepeats(order) && |order| > 0 && |tokens| > 0 && Elements(tokens) <= Elements(order)
    ensures var t := RootOf(order, tokens);
      && t.Cnt() > 0 && Distinct(t) && t.Texts() == Elements(order)
      && Distinct(Prune(t)) && Prune(t).Texts() == Elements(tokens)
  {
    var t := RootOf(order, tokens);
    LeavesForAreLeaves(order, tokens);
    BuildOfLeaves(LeavesFor(order, tokens));
    assert tokens[0] in Elements(tokens);
    CountsInTree(order, tokens, tokens[0]);
    CountIn(tokens, tokens[0]);
    WeightWithin(tokens[0], t);
    PruneIsDistinct(t);
    hide RootOf, Prune, Distinct, LeavesFor, Tree.Cnt, Tree.Texts;
    forall s ensures s in Prune(t).Texts() <==> s in Elements(tokens) {
      PruneKeepsUsed(t, s);
      CountsInTree(order, tokens, s);
      CountIn(tokens, s);
    }
  }

  /** The pruned tree's table writes fewer bits, by the inner weights it saves. */
  lemma PrunedLength(order: seq<string>, tokens: seq<string>)
    requires NoRepeats(order) && |order| > 0 && |tokens| > 0 && Elements(tokens) <= Elements(order)
    ensures var p := Prune(RootOf(order, tokens)); var m := TableOf(p, []);
      && m.Keys == Elements(tokens) && IsPrefixCode(m, Elements(tokens))
      && (forall k | k in tokens :: k in m) && |Encode(m, tokens)| == Internal(p)
  {
    var t := RootOf(order, tokens);
    var p := Prune(t);
    var m := TableOf(p, []);
    UsedKeys(order, tokens);
    TableIsPrefixCode(p);
    TotalOfTable(p, [], m);
    hide *;
    LengthIsTotal(order, tokens, m);
    RootTotal(order, tokens, m);
    PruneKeepsTotal(t, m);
  }

  lemma RootTotal(order: seq<string>, tokens: seq<string>, m: map<string, Code>)
    requires |order| > 0
    ensures Total(RootOf(order, tokens), m) == Sum(t => Total(t, m), LeavesFor(order, tokens))
  {
    KeepsTotal(LeavesFor(order, tokens), m);
  }

  function EncodedLength(m: map<string, Code>, tokens: seq<string>): nat
    requires Elements(tokens) <= m.Keys
  {
    assert forall k | k in tokens :: k in Elements(tokens);
    |Encode(m, tokens)|
  }

  lemma UnusedKeyCosts(order: seq<string>, tokens: seq<string>, k: string)
    requires NoRepeats(order) && |tokens| > 0 && Elements(tokens) <= Elements(order)
    requires k in order && k !in tokens
    ensures var m := TableOf(Prune(RootOf(order, tokens)), []);
      IsPrefixCode(m, Elements(tokens)) && EncodedLength(m, tokens) < Internal(RootOf(order, tokens))
  {
    UsedKeys(order, tokens);
    PrunedLength(order, tokens);
    CountIn(tokens, k);
    CountsInTree(order, tokens, k);
    assert k in Elements(order);
    hide RootOf, TableOf, Prune, Distinct, Internal, Encode, NoRepeats, IsPrefixCode;
    PruneSaves(RootOf(order, tokens), k);
  }

  lemma NoUnusedKey(order: seq<string>, tokens: seq<string>, m: map<string, Code>)
    requires NoRepeats(order) && |order| > 0 && Elements(tokens) <= Elements(order)
    requires (forall k | k in order :: k in tokens) && IsPrefixCode(m, Elements(tokens))
    ensures Elements(tokens) <= TableOf(RootOf(order, tokens), []).Keys
    ensures EncodedLength(TableOf(RootOf(order, tokens), []), tokens) <= EncodedLength(m, tokens)
  {
    assert Elements(tokens) == Elements(order);
    CompressionIsMinimal(order, tokens, m);
  }

  /**
    A key with count zero (a chosen pair that the tokeniser never takes) still gets a code.
    Judged on the tokens that occur, the built table is minimal exactly when there is none.
   */
  lemma MinimalForUsedKeysIff(order: seq<string>, tokens: seq<string>)
    requires NoRepeats(order) && |order| > 0 && |tokens| > 0 && Elements(tokens) <= Elements(order)
    ensures Elements(tokens) <= TableOf(RootOf(order, tokens), []).Keys
    ensures (forall m: map<string, Code> | IsPrefixCode(m, Elements(tokens)) ::
              EncodedLength(TableOf(RootOf(order, tokens), []), tokens) <= EncodedLength(m, tokens)) <==>
            (forall k | k in order :: k in tokens)
  {
    var table := TableOf(RootOf(order, tokens), []);
    UsedKeys(order, tokens);
    TableIsPrefixCode(RootOf(order, tokens));
    CompressionIsMinimal(order, tokens, table);
    assert EncodedLength(table, tokens) == Internal(RootOf(order, tokens));
    hide *;
    if k :| k in order && k !in tokens {
      UnusedKeyCosts(order, tokens, k);
    } else {
      forall m: map<string, Code> | IsPrefixCode(m, Elements(tokens))
        ensures EncodedLength(table, tokens) <= EncodedLength(m, tokens)
      {
        NoUnusedKey(order, tokens, m);
      }
    }
  }

  lemma OverlappingPairs()
    ensures var pairs := {"ab", "bc"};
      Tokens(pairs, "abc") == ["ab", "c"] && Keys(pairs, "abc") == {"ab", "bc", "c"} && ArePairs(pairs)
  {
    var pairs := {"ab", "bc"};
    var text := "abc";
    assert text[..2] == "ab" && text[2..] == "c" && "c"[..1] == "c" && "c"[1..] == "";
    assert Tokens(pairs, "c") == ["c"] + Tokens(pairs, "") == ["c"];
    assert Tokens(pairs, text) == ["ab"] + Tokens(pairs, "c");
  }

  /**
    Two chosen pairs that overlap: the text abc is cut into ab and c, the pair bc never occurs, and
    some other prefix code for the tokens that do occur gives fewer bits than the table.
   */
  lemma UnusedPairIsNotMinimal(order: seq<string>) returns (m: map<string, Code>)
    requires NoRepeats(order) && Elements(order) == Keys({"ab", "bc"}, "abc")
    ensures var tokens := Tokens({"ab", "bc"}, "abc");
      && "bc" in order && Count(tokens, "bc") == 0 && IsPrefixCode(m, Elements(tokens))
      && Elements(tokens) <= TableOf(RootOf(order, tokens), []).Keys
      && EncodedLength(m, tokens) < EncodedLength(TableOf(RootOf(order, tokens), []), tokens)
  {
    OverlappingPairs();
    var tokens := Tokens({"ab", "bc"}, "abc");
    assert "bc" in Elements(order) && "bc" !in tokens && Elements(tokens) == {"ab", "c"};
    CountIn(tokens, "bc");
    hide *;
    MinimalForUsedKeysIff(order, tokens);
    m :| IsPrefixCode(m, Elements(tokens)) &&
         !(EncodedLength(TableOf(RootOf(order, tokens), []), tokens) <= EncodedLength(m, tokens));
  }

  // ---------- Decoding ----------

  datatype Walked = Stuck | At(text: string, rest: Code)

  /** Go down the tree, left on 0 and right on 1, up to a leaf. */
  function Walk(t: Tree, bits: Code): (r: Walked)
    ensures r.At? ==> |r.rest| <= |bits|
    ensures r.At? && t.Node? ==> |r.rest| < |bits|
  {
    match t
    case Leaf(_, text) => At(text, bits)
    case Node(l, r) => if |bits| == 0 then Stuck else Walk(if bits[0] then r else l, bits[1..])
  }

  function Decode(root: Tree, bits: Code): seq<string>
    requires root.Node?
    decreases |bits|
  {
    if |bits| == 0 then []
    else
      match Walk(root, bits)
      case Stuck => []
      case At(text, rest) => [text] + Decode(root, rest)
  }

  lemma CodeGoesDown(t: Tree, code: Code, s: string) returns (bit: bool)
    requires t.Node? && Distinct(t) && s in t.Texts()
    ensures var child := if bit then t.right else t.left;
      && Distinct(child) && s in child.Texts() && s in TableOf(t, code) && s in TableOf(child, code + [bit])
      && TableOf(t, code)[s] == TableOf(child, code + [bit])[s] && code + [bit] <= TableOf(t, code)[s]
  {
    bit := s in t.right.Texts();
    TableKeys(t, code);
    TableKeys(t.left, code + [false]);
    TableKeys(t.right, code + [true]);
  }

  lemma {:induction false} WalkFollowsCode(t: Tree, code: Code, s: string, rest: Code)
    requires Distinct(t) && s in t.Texts()
    ensures s in TableOf(t, code) && code <= TableOf(t, code)[s]
    ensures Walk(t, TableOf(t, code)[s][|code|..] + rest) == At(s, rest)
  {
    TableKeys(t, code);
    var c := TableOf(t, code)[s];
    if t.Leaf? {
      assert c[|code|..] + rest == rest;
    } else {
      var bit := CodeGoesDown(t, code, s);
      hide TableOf, Distinct, Tree.Texts;
      WalkFollowsCode(if bit then t.right else t.left, code + [bit], s, rest);
      NextBit(c, code, bit, rest);
    }
  }

  lemma NextBit(c: Code, code: Code, bit: bool, rest: Code)
    requires code + [bit] <= c
    ensures var bits := c[|code|..] + rest;
      |bits| > 0 && bits[0] == bit && bits[1..] == c[|code + [bit]|..] + rest
  {
    assert c[|code|] == (code + [bit])[|code|];
  }

  /** Walking the tree along the compressed bits gives the tokens back. */
  lemma {:induction false} DecodeUndoesEncode(root: Tree, tokens: seq<string>)
    requires root.Node? && Distinct(root) && Elements(tokens) <= root.Texts()
    ensures forall k | k in tokens :: k in TableOf(root, [])
    ensures Decode(root, Encode(TableOf(root, []), tokens)) == tokens
  {
    TableKeys(root, []);
    var table := TableOf(root, []);
    forall k | k in tokens ensures k in table { assert k in Elements(tokens); }
    if |tokens| > 0 {
      assert tokens == [tokens[0]] + tokens[1..];
      var rest := Encode(table, tokens[1..]);
      DecodeUndoesEncode(root, tokens[1..]);
      assert tokens[0] in Elements(tokens);
      WalkFollowsCode(root, [], tokens[0], rest);
      assert table[tokens[0]][0..] == table[tokens[0]];
    }
  }
}

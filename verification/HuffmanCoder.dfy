/**
  The coder as it runs: counting, the merge loop, the recursive walk that fills the code table,
  compress, and writing and reading the table.  The round trips follow from what the methods
  compute.
 */
module HuffmanCoder {
  import opened BitPacking
  import opened Bytes
  import opened Powers
  import opened HuffmanTree
  import opened HuffmanOptimal
  import opened HuffmanCode
  import opened HuffmanText
  import F = HuffmanFormat
  import O = HuffmanOrder

  /** The token at position i. */
  function TokenAt(keys: set<string>, text: string, i: nat): (ch: string)
    requires i < |text|
    ensures 0 < |ch| <= |text| - i
  {
    if i < |text| - 1 && text[i..i + 2] in keys then text[i..i + 2] else text[i..i + 1]
  }

  lemma NextToken(keys: set<string>, text: string, i: nat, done: seq<string>)
    requires i < |text|
    ensures var ch := TokenAt(keys, text, i);
      && done + Tokens(keys, text[i..]) == (done + [ch]) + Tokens(keys, text[i + |ch|..])
      && ch in done + Tokens(keys, text[i..])
  {
    var rest, ch := text[i..], TokenAt(keys, text, i);
    assert rest[..1] == text[i..i + 1] && (|rest| > 1 ==> rest[..2] == text[i..i + 2]);
    assert rest[|ch|..] == text[i + |ch|..];
    assert Tokens(keys, rest) == [ch] + Tokens(keys, text[i + |ch|..]);
  }

  lemma NoTokenLeft(keys: set<string>, text: string)
    ensures Tokens(keys, text[|text|..]) == [] && text[0..] == text
  {
  }

  /** The map after the tokens in done have been counted. */
  ghost predicate Counted(counts: map<string, nat>, pairs: set<string>, done: seq<string>) {
    && counts.Keys == pairs + Elements(done)
    && (forall k | k in counts :: counts[k] == Count(done, k))
    && forall k | k in done :: |k| == 1 || k in pairs
  }

  function Increment(counts: map<string, nat>, k: string): map<string, nat> {
    counts[k := (if k in counts then counts[k] else 0) + 1]
  }

  lemma CountOneMore(counts: map<string, nat>, pairs: set<string>, done: seq<string>, ch: string)
    requires Counted(counts, pairs, done) && (|ch| == 1 || ch in pairs)
    ensures Counted(Increment(counts, ch), pairs, done + [ch])
  {
    var counts' := Increment(counts, ch);
    assert counts'.Keys == pairs + Elements(done + [ch]);
    forall k | k in counts' ensures counts'[k] == Count(done + [ch], k) {
      CountSnoc(done, ch, k);
      CountIn(done, k);
    }
  }

  /** Only the chosen pairs are two-character keys of the map. */
  lemma PairLookup(counts: map<string, nat>, pairs: set<string>, done: seq<string>, text: string, i: nat)
    requires ArePairs(pairs) && Counted(counts, pairs, done) && i < |text|
    ensures TokenAt(counts.Keys, text, i) == TokenAt(pairs, text, i)
    ensures |TokenAt(pairs, text, i)| == 1 || TokenAt(pairs, text, i) in pairs
  {
  }

  lemma NothingCounted(counts: map<string, nat>, pairs: set<string>)
    requires counts == map k | k in pairs :: 0
    ensures Counted(counts, pairs, [])
  {
  }

  /** Count pairs first and single characters otherwise; a counted pair is skipped as a whole. */
  method CountTokens(text: string, pairs: set<string>) returns (counts: map<string, nat>)
    requires ArePairs(pairs)
    ensures Counted(counts, pairs, Tokens(pairs, text))
  {
    hide Tokens, Counted, ArePairs;
    counts := map k | k in pairs :: 0;
    ghost var done := [];
    var i := 0;
    NoTokenLeft(pairs, text);
    NothingCounted(counts, pairs);
    while i < |text|
      invariant i <= |text| && done + Tokens(pairs, text[i..]) == Tokens(pairs, text)
      invariant Counted(counts, pairs, done)
    {
      var subs := text[i..i + 1];
      if i < |text| - 1 && text[i..i + 2] in counts {
        subs := text[i..i + 2];
      }
      PairLookup(counts, pairs, done, text, i);
      assert subs == TokenAt(counts.Keys, text, i);
      hide TokenAt;
      NextToken(pairs, text, i, done);
      CountOneMore(counts, pairs, done, subs);
      counts := Increment(counts, subs);
      done := done + [subs];
      i := i + |subs|;
    }
    assert done == Tokens(pairs, text);
  }

  /** Push one leaf per key of the map. */
  method PushLeaves(counts: map<string, nat>, ghost pairs: set<string>, ghost tokens: seq<string>)
    returns (q: seq<Tree>, ghost order: seq<string>)
    requires Counted(counts, pairs, tokens)
    ensures NoRepeats(order) && Elements(order) == pairs + Elements(tokens) && q == LeavesFor(order, tokens)
  {
    q, order := [], [];
    var left := counts.Keys;
    hide Count;
    while left != {}
      invariant NoRepeats(order) && q == LeavesFor(order, tokens)
      invariant left <= counts.Keys && Elements(order) == counts.Keys - left
      decreases left
    {
      var k :| k in left;
      assert k !in order by { assert k !in Elements(order); }
      assert Elements([k] + order) == {k} + Elements(order);
      assert ([k] + order)[1..] == order;
      q, order, left := [Leaf(counts[k], k)] + q, [k] + order, left - {k};
    }
  }

  lemma SomeKey(pairs: set<string>, text: string, order: seq<string>)
    requires |text| > 0 && Elements(order) == pairs + Elements(Tokens(pairs, text))
    ensures |order| > 0
  {
    var tokens := Tokens(pairs, text);
    assert tokens[0] in Elements(tokens);
    assert tokens[0] in Elements(order);
  }

  /** Pop the two smallest nodes and push their parent until one node is left. */
  method MergeAll(leaves: seq<Tree>) returns (root: Tree)
    requires |leaves| > 0
    ensures root == Build(leaves)
  {
    var q := leaves;
    while |q| > 1
      invariant |q| > 0 && Build(q) == Build(leaves)
      decreases |q|
    {
      var i := Top(q);
      var chd1 := q[i];
      q := Remove(q, i);
      var j := Top(q);
      var chd2 := q[j];
      q := Remove(q, j);
      q := q + [Merge(chd1, chd2)];
    }
    root := q[0];
  }

  class HfTree {
    var root: Tree
    var codingTable: map<string, Code>
    var code: Code
    ghost var order: seq<string>

    /** The tree of a text for a choice of pairs; without pairs this is the single-character option. */
    constructor (text: string, pairs: set<string>)
      requires |text| > 0 && ArePairs(pairs)
      ensures NoRepeats(order) && Elements(order) == Keys(pairs, text) && |order| > 0
      ensures root == RootOf(order, Tokens(pairs, text)) && codingTable == TableOf(root, [])
      ensures O.SmallerLeft(root)
    {
      hide Tokens, Elements, NoRepeats, Counted, ArePairs, TableOf, Build, O.SmallerLeft;
      var counts := CountTokens(text, pairs);
      var q, o := PushLeaves(counts, pairs, Tokens(pairs, text));
      SomeKey(pairs, text, o);
      O.RootPutsSmallerLeft(o, Tokens(pairs, text));
      var top := MergeAll(q);
      root, order, code, codingTable := top, o, [], map[];
      new;
      AddTable(root);
      assert map[] + TableOf(root, []) == TableOf(root, []);
    }

    /** Append a bit, go down, erase the bit again; a leaf stores the current code. */
    method AddTable(now: Tree)
      modifies this`codingTable, this`code
      ensures code == old(code)
      ensures codingTable == old(codingTable) + TableOf(now, old(code))
      decreases now
    {
      match now {
        case Leaf(_, text) =>
          codingTable := codingTable[text := code];
        case Node(l, r) =>
          code := code + [false];
          AddTable(l);
          code := code[..|code| - 1];
          code := code + [true];
          AddTable(r);
          code := code[..|code| - 1];
          Stored(old(codingTable), TableOf(l, old(code) + [false]), TableOf(r, old(code) + [true]));
      }
    }
  }

  lemma Stored(table: map<string, Code>, l: map<string, Code>, r: map<string, Code>)
    ensures table + l + r == table + (l + r)
  {
  }

  // ---------- compress ----------

  /** Whole bytes are in result, the bits of the unfinished one in c. */
  ghost predicate Written(bits: Code, result: seq<Byte>, c: nat) {
    && 8 * |result| <= |bits| < 8 * |result| + 8
    && result == Pack(bits[..8 * |result|])
    && c == Value(bits[8 * |result|..])
  }

  lemma UnfinishedIsSmall(bits: Code, result: seq<Byte>, c: nat)
    requires Written(bits, result, c)
    ensures c < 128
  {
    SmallPow(|bits[8 * |result|..]|);
  }

  lemma SmallPow(n: nat)
    requires n < 8
    ensures Pow2(n) <= 128
  {
    assert Pow2(3) == 8 && Pow2(5) == 32;
    assert Pow2(7) == 128 && Pow2(6) == 64 && Pow2(4) == 16;
  }

  lemma Remainder(n: nat, q: nat)
    requires 8 * q <= n < 8 * q + 8
    ensures n % 8 == n - 8 * q
    ensures (n + 1) % 8 == 0 <==> n + 1 == 8 * q + 8
    ensures (8 * q) % 8 == 0
  {
  }

  lemma WriteBit(bits: Code, b: bool, result: seq<Byte>, c: nat)
    requires Written(bits, result, c)
    ensures var c' := 2 * c + if b then 1 else 0;
      && c' < 256
      && ((|bits| + 1) % 8 != 0 ==> Written(bits + [b], result, c'))
      && ((|bits| + 1) % 8 == 0 ==> Written(bits + [b], result + [c'], 0))
  {
    hide Value, Pack, Pow2;
    UnfinishedIsSmall(bits, result, c);
    NoBits();
    var n := 8 * |result|;
    Remainder(|bits|, |result|);
    ValueSnoc(bits[n..], b);
    assert (bits + [b])[n..] == bits[n..] + [b];
    assert (bits + [b])[..n] == bits[..n];
    if |bits| + 1 == n + 8 {
      WholeByte(bits[..n], bits[n..] + [b]);
      assert bits + [b] == bits[..n] + (bits[n..] + [b]);
      assert (bits + [b])[..n + 8] == bits + [b];
      assert (bits + [b])[n + 8..] == [];
    }
  }

  lemma NoBits()
    ensures Value([]) == 0
  {
  }

  lemma WholeByte(whole: Code, group: Code)
    requires |whole| % 8 == 0 && |group| == 8
    ensures Value(group) < 256
    ensures Pack(whole + group) == Pack(whole) + [Value(group)]
  {
    ByteRange(group);
    PackWhole(whole, group);
    assert group[..8] == group;
  }

  /** c << n, before the cut to eight bits */
  function Shift(c: nat, n: nat): nat { c * Pow2(n) }

  lemma PackTail(tail: Code)
    requires 0 < |tail| < 8
    ensures Shift(Value(tail), 8 - |tail|) < 256 && Pack(tail) == [Shift(Value(tail), 8 - |tail|)]
  {
    hide Value, Pow2;
    ValuePadded(tail, 8 - |tail|);
    ByteRange(tail + Zeros(8 - |tail|));
  }

  lemma LastGroup(whole: Code, tail: Code)
    requires |whole| % 8 == 0 && |tail| < 8
    ensures tail == [] ==> Pack(whole + tail) == Pack(whole)
    ensures tail != [] ==> Shift(Value(tail), 8 - |tail|) < 256
    ensures tail != [] ==> Pack(whole + tail) == Pack(whole) + [Shift(Value(tail), 8 - |tail|)]
  {
    assert Pack([]) == [];
    hide *;
    PackWhole(whole, tail);
    if tail != [] { PackTail(tail); }
  }

  lemma LastByte(bits: Code, result: seq<Byte>, c: nat, r: nat)
    requires Written(bits, result, c) && r == |bits| - 8 * |result|
    ensures r < 8 && |bits| % 8 == r
    ensures r == 0 ==> Pack(bits) == result
    ensures r != 0 ==> Shift(c, 8 - r) < 256 && Pack(bits) == result + [Shift(c, 8 - r)]
  {
    hide Pack, Value, Pow2, Shift;
    var n := 8 * |result|;
    assert bits == bits[..n] + bits[n..];
    Remainder(|bits|, |result|);
    LastGroup(bits[..n], bits[n..]);
  }

  lemma NothingWritten(table: map<string, Code>)
    ensures Written([], [], 0) && Encode(table, []) == []
  {
  }

  lemma WrittenSize(bits: Code, result: seq<Byte>, c: nat)
    requires Written(bits, result, c)
    ensures 8 * |result| <= |bits|
  {
  }

  /** Fill the unfinished byte with zeros at the low end. */
  method Finish(before: seq<Byte>, c: Byte, len: nat, ghost bits: Code) returns (result: seq<Byte>)
    requires Written(bits, before, c) && len == |bits|
    ensures result == Pack(bits)
  {
    WrittenSize(bits, before, c);
    hide Written, Pack, Shift;
    LastByte(bits, before, c, |bits| - 8 * |before|);
    result := before;
    var r := len % 8;
    if r != 0 {
      result := result + [Shift(c, 8 - r)];
    }
  }

  lemma LowestByte(header: seq<Byte>, len: nat, n: nat)
    ensures n > 0 ==> header + [len % 256] + LeBytes(len / 256, n - 1) == header + LeBytes(len, n)
    ensures header + LeBytes(len, 0) == header
  {
    if n > 0 { assert LeBytes(len, n) == [len % 256] + LeBytes(len / 256, n - 1); }
  }

  /** Eight bytes of the length, lowest first. */
  method Header(total: nat) returns (header: seq<Byte>)
    ensures header == LeBytes(total, 8)
  {
    hide LeBytes;
    header := [];
    var len := total;
    for i := 1 to 9
      invariant header + LeBytes(len, 9 - i) == LeBytes(total, 8)
    {
      LowestByte(header, len, 9 - i);
      header := header + [len % 256];
      len := len / 256;
    }
    LowestByte(header, len, 0);
  }

  /** The inner loop of compress: append one code to the output. */
  method WriteCode(code: Code, before: seq<Byte>, c0: Byte, len0: nat, ghost bits: Code)
    returns (result: seq<Byte>, c: Byte, len: nat)
    requires Written(bits, before, c0) && len0 == |bits|
    ensures Written(bits + code, result, c) && len == |bits + code|
  {
    hide Written;
    result, c, len := before, c0, len0;
    assert bits + code[..0] == bits;
    for k := 0 to |code|
      invariant Written(bits + code[..k], result, c) && len == |bits + code[..k]|
    {
      WriteBit(bits + code[..k], code[k], result, c);
      assert bits + code[..k] + [code[k]] == bits + code[..k + 1];
      len := len + 1;
      c := 2 * c + if code[k] then 1 else 0;
      if len % 8 == 0 {
        result := result + [c];
        c := 0;
      }
    }
    assert code[..|code|] == code;
  }

  lemma TokenIs(table: map<string, Code>, text: string, i: nat, ch: string)
    requires i < |text|
    requires ch == if i < |text| - 1 && text[i..i + 2] in table then text[i..i + 2] else text[i..i + 1]
    ensures ch == TokenAt(table.Keys, text, i)
  {
  }

  lemma NextCode(table: map<string, Code>, text: string, i: nat, done: seq<string>)
    requires i < |text| && forall k | k in Tokens(table.Keys, text) :: k in table
    requires done + Tokens(table.Keys, text[i..]) == Tokens(table.Keys, text)
    ensures var ch := TokenAt(table.Keys, text, i);
      && ch in table && (forall k | k in done :: k in table) && (forall k | k in done + [ch] :: k in table)
      && (done + [ch]) + Tokens(table.Keys, text[i + |ch|..]) == Tokens(table.Keys, text)
      && Encode(table, done + [ch]) == Encode(table, done) + table[ch]
  {
    hide Tokens, Encode, TokenAt;
    NextToken(table.Keys, text, i, done);
    var ch := TokenAt(table.Keys, text, i);
    forall k | k in done ensures k in table { assert k in done + Tokens(table.Keys, text[i..]); }
    EncodeSnoc(table, done, ch);
  }

  /** Write the codes of the tokens bit by bit, fill the last byte, and put the bit count in front. */
  method Compress(codingTable: map<string, Code>, text: string) returns (result: seq<Byte>)
    requires forall k | k in Tokens(codingTable.Keys, text) :: k in codingTable
    ensures result == F.Packed(Encode(codingTable, Tokens(codingTable.Keys, text)))
  {
    hide Tokens, Written, Encode, Pack, LeBytes, TokenAt;
    ghost var keys := codingTable.Keys;
    ghost var done := [];
    result := [];
    var c: Byte, len := 0, 0;
    var i := 0;
    NothingWritten(codingTable);
    NoTokenLeft(keys, text);
    while i < |text|
      invariant i <= |text| && done + Tokens(keys, text[i..]) == Tokens(keys, text)
      invariant forall k | k in done :: k in codingTable
      invariant len == |Encode(codingTable, done)| && Written(Encode(codingTable, done), result, c)
    {
      var ch := text[i..i + 1];
      if i < |text| - 1 && text[i..i + 2] in codingTable {
        ch := text[i..i + 2];
      }
      TokenIs(codingTable, text, i, ch);
      NextCode(codingTable, text, i, done);
      result, c, len := WriteCode(codingTable[ch], result, c, len, Encode(codingTable, done));
      done := done + [ch];
      i := i + |ch|;
    }
    assert done == Tokens(keys, text);
    result := Finish(result, c, len, Encode(codingTable, done));
    var header := Header(len);
    result := header + result;
  }

  // ---------- The round trips ----------

  lemma {:induction false} MoreLeavesGiveNode(q: seq<Tree>)
    requires |q| > 1
    ensures Build(q).Node?
    decreases |q|
  {
    if |q| > 2 { MoreLeavesGiveNode(Step(q)); }
  }

  /**
    With at least two keys the compressed data can be read back: the length-many bits, walked
    down the tree, spell the text that was compressed.
   */
  lemma CompressionIsLossless(order: seq<string>, pairs: set<string>, text: string)
    requires ArePairs(pairs) && NoRepeats(order) && Elements(order) == Keys(pairs, text) && |order| > 1
    ensures var root := RootOf(order, Tokens(pairs, text)); var table := TableOf(root, []);
      && root.Node? && Elements(Tokens(table.Keys, text)) <= table.Keys
      && (EncodedLength(table, Tokens(table.Keys, text)) < F.Pow256(8) ==>
            Concat(Decode(root, F.Unpacked(F.Packed(Encoded(table, text))))) == text)
  {
    var tokens := Tokens(pairs, text);
    var q := LeavesFor(order, tokens);
    var root := RootOf(order, tokens);
    var table := TableOf(root, []);
    MoreLeavesGiveNode(q);
    LeavesForAreLeaves(order, tokens);
    BuildOfLeaves(q);
    TableKeys(root, []);
    TableGivesSameTokens(pairs, text);
    TokensSpellText(pairs, text);
    hide *;
    DecodeUndoesEncode(root, tokens);
    if EncodedLength(table, tokens) < F.Pow256(8) {
      LengthOfEncoded(table, text);
      F.UnpackedPacked(Encoded(table, text));
      EncodedIs(table, text);
    }
  }

  function Encoded(table: map<string, Code>, text: string): Code
    requires Elements(Tokens(table.Keys, text)) <= table.Keys
  {
    assert forall k | k in Tokens(table.Keys, text) :: k in Elements(Tokens(table.Keys, text));
    Encode(table, Tokens(table.Keys, text))
  }

  lemma LengthOfEncoded(table: map<string, Code>, text: string)
    requires Elements(Tokens(table.Keys, text)) <= table.Keys
    ensures |Encoded(table, text)| == EncodedLength(table, Tokens(table.Keys, text))
  {
  }

  lemma EncodedIs(table: map<string, Code>, text: string)
    requires Elements(Tokens(table.Keys, text)) <= table.Keys
    ensures forall k | k in Tokens(table.Keys, text) :: k in table
    ensures Encoded(table, text) == Encode(table, Tokens(table.Keys, text))
  {
    assert forall k | k in Tokens(table.Keys, text) :: k in Elements(Tokens(table.Keys, text));
  }

  /** With one key every code is empty: texts of all lengths compress to the same zero length. */
  lemma {:induction false} OneKeyLosesTheText(order: seq<string>, counted: seq<string>, tokens: seq<string>)
    requires |order| == 1 && forall k | k in tokens :: k == order[0]
    ensures TableOf(RootOf(order, counted), []) == map[order[0] := []]
    ensures Encode(TableOf(RootOf(order, counted), []), tokens) == []
    decreases |tokens|
  {
    assert LeavesFor(order, counted) == [Leaf(Count(counted, order[0]), order[0])];
    assert RootOf(order, counted) == Leaf(Count(counted, order[0]), order[0]);
    assert TableOf(RootOf(order, counted), []) == map[order[0] := []];
    hide RootOf, TableOf, LeavesFor;
    if |tokens| > 0 {
      forall k | k in tokens[1..] ensures k in tokens {}
      assert tokens[0] in tokens;
      OneKeyLosesTheText(order, counted, tokens[1..]);
    }
  }

  // ---------- The table as text ----------

  /** The entries list each key of the table once, with its code. */
  ghost predicate Lists(entries: seq<F.Entry>, table: map<string, Code>) {
    && F.Loaded(map[], entries) == table
    && (forall i, j | 0 <= i < j < |entries| :: entries[i].text != entries[j].text)
    && forall e | e in entries :: e.text in table && e.code == table[e.text]
  }

  method CodingTable2String(codingTable: map<string, Code>) returns (result: string)
    ensures exists entries :: Lists(entries, codingTable) && result == F.Render(entries)
  {
    result := "";
    ghost var entries: seq<F.Entry> := [];
    var left := codingTable.Keys;
    while left != {}
      invariant left <= codingTable.Keys && result == F.Render(entries)
      invariant F.Loaded(map[], entries) == codingTable - left
      invariant forall i, j | 0 <= i < j < |entries| :: entries[i].text != entries[j].text
      invariant forall e | e in entries :: e.text in codingTable && e.text !in left && e.code == codingTable[e.text]
      decreases left
    {
      var k :| k in left;
      ghost var e := F.Entry(k, codingTable[k]);
      F.RenderSnoc(entries, e);
      F.LoadedSnoc(map[], entries, e);
      assert F.Line(e) == k + " " + F.Digits(codingTable[k]) + "\n";
      result := result + (k + " " + F.Digits(codingTable[k]) + "\n");
      entries, left := entries + [e], left - {k};
    }
    assert Lists(entries, codingTable);
  }

  lemma LoadStep(table: map<string, Code>, content: string, pt: nat, e: F.Entry, next: nat)
    requires pt < |content| && F.ReadEntry(content, pt) == (e, next)
    ensures F.Load(table, content, pt) == F.Load(table[e.text := e.code], content, next)
  {
  }

  lemma LoadEnd(table: map<string, Code>, content: string, pt: nat)
    requires pt >= |content|
    ensures F.Load(table, content, pt) == table
  {
  }

  /** The inner loop of loadCodingTable. */
  method ReadDigits(content: string, from: nat) returns (code: Code, pt: nat)
    ensures code == F.DigitsFrom(content, from) && pt == from + |code|
  {
    code, pt := [], from;
    while F.IsDigit(F.CharAt(content, pt))
      invariant from <= pt == from + |code| && code + F.DigitsFrom(content, pt) == F.DigitsFrom(content, from)
      decreases |content| - pt
    {
      code := code + [F.CharAt(content, pt) == '1'];
      pt := pt + 1;
    }
  }

  /** The reading loop, one entry per round. */
  method LoadCodingTable(content: string, start: map<string, Code>) returns (codingTable: map<string, Code>)
    ensures codingTable == F.Load(start, content, 0)
  {
    hide F.Load, F.DigitsFrom;
    codingTable := start;
    var pt := 0;
    while pt < |content|
      invariant F.Load(codingTable, content, pt) == F.Load(start, content, 0)
      decreases |content| - pt
    {
      ghost var was := pt;
      var ch := [content[pt]];
      pt := pt + 1;
      if !F.CodeFollows(content, pt) {
        ch := ch + [F.CharAt(content, pt)];
        pt := pt + 1;
      }
      pt := pt + 1;
      var code;
      code, pt := ReadDigits(content, pt);
      pt := pt + 1;
      assert ch == F.ReadEntry(content, was).0.text;
      LoadStep(codingTable, content, was, F.Entry(ch, code), pt);
      codingTable := codingTable[ch := code];
    }
    LoadEnd(codingTable, content, pt);
  }

  lemma NodeCodesAreNotEmpty(root: Tree, k: string)
    requires root.Node? && Distinct(root) && k in root.Texts()
    ensures k in TableOf(root, []) && |TableOf(root, [])[k]| > 0
  {
    var bit := CodeGoesDown(root, [], k);
  }

  /**
    The table of a tree over one- and two-character keys survives being written and read back,
    except when its only key is a single character.
   */
  lemma TableTextRoundTripIff(root: Tree, entries: seq<F.Entry>)
    requires Distinct(root) && Lists(entries, TableOf(root, []))
    requires forall k | k in root.Texts() :: 1 <= |k| <= 2
    ensures F.Load(map[], F.Render(entries), 0) == TableOf(root, []) <==> (root.Node? || |root.text| == 2)
  {
    var table := TableOf(root, []);
    TableKeys(root, []);
    if root.Node? || |root.text| == 2 {
      forall e | e in entries ensures F.Readable(e) {
        if root.Node? { NodeCodesAreNotEmpty(root, e.text); }
      }
      F.LoadUndoesRender(entries);
    } else {
      OneCharacterLine(root.text, entries);
    }
  }

  lemma OneCharacterLine(text: string, entries: seq<F.Entry>)
    requires |text| == 1 && Lists(entries, map[text := []])
    ensures F.Load(map[], F.Render(entries), 0) != map[text := []]
  {
    var e := F.Entry(text, []);
    var table: map<string, Code> := map[text := []];
    assert text in F.Loaded(map[], entries);
    forall x | x in entries ensures x == e {
      assert x.text in table;
    }
    assert entries[0] in entries;
    var content := F.Render(entries);
    assert content == F.Line(e) + F.Render(entries[1..]);
    assert content[0] == text[0] && content[1] == ' ' && content[2] == '\n';
    assert !F.CodeFollows(content, 1);
    var first := F.ReadEntry(content, 0).0;
    assert |first.text| == 2;
    LoadKeeps(map[first.text := first.code], content, F.ReadEntry(content, 0).1, first.text);
  }

  lemma {:induction false} LoadKeeps(table: map<string, Code>, content: string, pt: nat, k: string)
    requires k in table
    ensures k in F.Load(table, content, pt)
    decreases |content| - pt
  {
    if pt < |content| {
      var (e, next) := F.ReadEntry(content, pt);
      LoadKeeps(table[e.text := e.code], content, next, k);
    }
  }
}

/**
  The two file formats of utils.h: bits packed into bytes behind an 8-byte length, and the text
  form of the code table.
 */
module HuffmanFormat {
  import opened BitPacking
  import opened Bytes
  import opened Powers
  import opened HuffmanOptimal

  // ---------- The length in front ----------

  function Pow256(n: nat): (p: nat)
    ensures p > 0
  {
    if n == 0 then 1 else 256 * Pow256(n - 1)
  }

  lemma {:induction false} LengthIsReadBack(len: nat, n: nat)
    requires len < Pow256(n)
    ensures LeVal(LeBytes(len, n)) == len
  {
    if n > 0 {
      LengthIsReadBack(len / 256, n - 1);
      assert LeBytes(len, n)[1..] == LeBytes(len / 256, n - 1);
    }
  }

  /** What compress returns for the bits of a text. */
  function Packed(bits: Code): seq<Byte> {
    LeBytes(|bits|, 8) + Pack(bits)
  }

  /** The first length-many bits behind the length; None when the data is too short for them. */
  function Unpacked(data: seq<Byte>): Code {
    if |data| < 8 then []
    else
      var len, bits := LeVal(data[..8]), Unpack(data[8..]);
      if len <= |bits| then bits[..len] else bits
  }

  lemma UnpackedPacked(bits: Code)
    requires |bits| < Pow256(8)
    ensures Unpacked(Packed(bits)) == bits
  {
    LengthIsReadBack(|bits|, 8);
    UnpackPack(bits);
    assert Packed(bits)[..8] == LeBytes(|bits|, 8);
    assert Packed(bits)[8..] == Pack(bits);
  }

  // ---------- The text form of the code table ----------

  datatype Entry = Entry(text: string, code: Code)

  function Digit(b: bool): char { if b then '1' else '0' }

  function Digits(code: Code): (s: string)
    ensures |s| == |code| && forall k | 0 <= k < |s| :: s[k] == Digit(code[k])
  {
    seq(|code|, k requires 0 <= k < |code| => Digit(code[k]))
  }

  /** codingTable2String */
  function Line(e: Entry): string {
    e.text + " " + Digits(e.code) + "\n"
  }

  function Render(entries: seq<Entry>): string {
    if |entries| == 0 then "" else Line(entries[0]) + Render(entries[1..])
  }

  /** The table that results from storing the entries one after the other. */
  function Loaded(table: map<string, Code>, entries: seq<Entry>): map<string, Code>
    decreases |entries|
  {
    if |entries| == 0 then table else Loaded(table[entries[0].text := entries[0].code], entries[1..])
  }

  lemma {:induction false} LoadedSnoc(table: map<string, Code>, entries: seq<Entry>, e: Entry)
    ensures Loaded(table, entries + [e]) == Loaded(table, entries)[e.text := e.code]
    decreases |entries|
  {
    if |entries| > 0 {
      LoadedSnoc(table[entries[0].text := entries[0].code], entries[1..], e);
      assert (entries + [e])[1..] == entries[1..] + [e];
    }
  }

  lemma {:induction false} RenderSnoc(entries: seq<Entry>, e: Entry)
    ensures Render(entries + [e]) == Render(entries) + Line(e)
  {
    if |entries| > 0 {
      RenderSnoc(entries[1..], e);
      assert (entries + [e])[1..] == entries[1..] + [e];
    } else {
      assert Render([e]) == Line(e) + Render([]);
    }
  }

  /** content[pt]; the character behind the last one is the terminator. */
  function CharAt(content: string, pt: nat): char {
    if pt < |content| then content[pt] else 0 as char
  }

  predicate IsDigit(c: char) { c == '0' || c == '1' }

  /** content.substr(pt, 2) is " 0" or " 1" */
  predicate CodeFollows(content: string, pt: nat) {
    pt + 1 < |content| && content[pt] == ' ' && IsDigit(content[pt + 1])
  }

  function DigitsFrom(content: string, pt: nat): (code: Code)
    ensures pt + |code| <= |content| || code == []
    decreases |content| - pt
  {
    if pt < |content| && IsDigit(content[pt]) then [content[pt] == '1'] + DigitsFrom(content, pt + 1) else []
  }

  /** One round of loadCodingTable's loop from position pt: the entry read, and where it stops. */
  function ReadEntry(content: string, pt: nat): (Entry, nat)
    requires pt < |content|
  {
    var single := CodeFollows(content, pt + 1);
    var text := if single then [content[pt]] else [content[pt], CharAt(content, pt + 1)];
    var start := pt + |text| + 1;
    var code := DigitsFrom(content, start);
    (Entry(text, code), start + |code| + 1)
  }

  function Load(table: map<string, Code>, content: string, pt: nat): map<string, Code>
    decreases |content| - pt
  {
    if pt >= |content| then table
    else
      var (e, next) := ReadEntry(content, pt);
      Load(table[e.text := e.code], content, next)
  }

  /** The entry is read back: two characters, or one character with a code that is not empty. */
  predicate Readable(e: Entry) {
    |e.text| == 2 || (|e.text| == 1 && |e.code| > 0)
  }

  lemma {:induction false} DigitsAreRead(code: Code, k: nat, before: string, after: string)
    requires k <= |code|
    ensures DigitsFrom(before + Digits(code) + "\n" + after, |before| + k) == code[k..]
    decreases |code| - k
  {
    var content := before + Digits(code) + "\n" + after;
    if k < |code| {
      DigitsAreRead(code, k + 1, before, after);
      assert content[|before| + k] == Digits(code)[k];
    } else {
      assert content[|before| + k] == '\n';
    }
  }

  lemma CodeIsRead(e: Entry, before: string, after: string)
    ensures DigitsFrom(before + Line(e) + after, |before| + |e.text| + 1) == e.code
  {
    var front := before + e.text + " ";
    assert before + Line(e) + after == front + Digits(e.code) + "\n" + after;
    DigitsAreRead(e.code, 0, front, after);
  }

  lemma LineAt(e: Entry, before: string, after: string)
    ensures var content := before + Line(e) + after; var pt := |before|;
      && |content| >= pt + |e.text| + |e.code| + 2 && content[pt..pt + |e.text|] == e.text
      && content[pt + |e.text|] == ' '
      && content[pt + |e.text| + 1] == if |e.code| > 0 then Digit(e.code[0]) else '\n'
  {
    assert Line(e)[..|e.text|] == e.text;
    assert Line(e)[|e.text| + 1] == if |e.code| > 0 then Digits(e.code)[0] else '\n';
  }

  lemma ReadsLine(e: Entry, before: string, after: string)
    requires Readable(e)
    ensures |Line(e)| > 0
    ensures ReadEntry(before + Line(e) + after, |before|) == (e, |before + Line(e)|)
  {
    var content, pt := before + Line(e) + after, |before|;
    assert |Line(e)| == |e.text| + 2 + |e.code|;
    LineAt(e, before, after);
    CodeIsRead(e, before, after);
    hide Line, Digits, DigitsFrom;
    if |e.text| == 1 {
      assert e.text == [content[pt]];
    } else {
      assert content[pt + 1] == content[pt..pt + 2][1] && content[pt] == content[pt..pt + 2][0];
      assert e.text == [content[pt], content[pt + 1]];
    }
  }

  lemma {:induction false} LoadFrom(table: map<string, Code>, entries: seq<Entry>, before: string)
    requires forall e | e in entries :: Readable(e)
    ensures Load(table, before + Render(entries), |before|) == Loaded(table, entries)
    decreases |entries|
  {
    if |entries| > 0 {
      var e, rest := entries[0], entries[1..];
      ReadsLine(e, before, Render(rest));
      assert before + Render(entries) == before + Line(e) + Render(rest);
      LoadFrom(table[e.text := e.code], rest, before + Line(e));
    }
  }

  /**
    A rendered entry with a one- or two-character text is read back exactly when it is not a
    single character with an empty code: that line would be taken for a two-character text.
   */
  lemma EntryIsReadBackIff(e: Entry)
    requires 1 <= |e.text| <= 2
    ensures ReadEntry(Line(e), 0).0 == e <==> Readable(e)
  {
    if Readable(e) {
      ReadsLine(e, "", "");
      assert "" + Line(e) + "" == Line(e);
    } else {
      assert Line(e)[1] == ' ' && Line(e)[2] == '\n';
    }
  }

  /** Loading a rendered table gives the table back. */
  lemma LoadUndoesRender(entries: seq<Entry>)
    requires forall e | e in entries :: Readable(e)
    ensures Load(map[], Render(entries), 0) == Loaded(map[], entries)
  {
    LoadFrom(map[], entries, "");
    assert "" + Render(entries) == Render(entries);
  }

  lemma {:induction false} LastDigitsAreRead(code: Code, k: nat, before: string)
    requires k <= |code|
    ensures DigitsFrom(before + Digits(code), |before| + k) == code[k..]
    decreases |code| - k
  {
    var content := before + Digits(code);
    if k < |code| {
      LastDigitsAreRead(code, k + 1, before);
      assert content[|before| + k] == Digits(code)[k];
    }
  }

  /** The break behind the last line may be missing. */
  lemma LastLineNeedsNoBreak(e: Entry)
    requires Readable(e)
    ensures Load(map[], e.text + " " + Digits(e.code), 0) == map[e.text := e.code]
  {
    var content := e.text + " " + Digits(e.code);
    LastDigitsAreRead(e.code, 0, e.text + " ");
    assert forall i | 0 <= i < |e.text| :: content[i] == e.text[i];
    assert content[|e.text|] == ' ' && (|e.code| > 0 ==> content[|e.text| + 1] == Digit(e.code[0]));
    hide Digits, DigitsFrom;
    assert e.text == if |e.text| == 1 then [content[0]] else [content[0], content[1]];
    assert ReadEntry(content, 0) == (e, |content| + 1);
  }

  /** A character with nothing behind it is stored together with the terminator of the content. */
  lemma LoneCharacter(c: char)
    ensures Load(map[], [c], 0) == map[[c, '\0'] := []]
  {
    assert ReadEntry([c], 0) == (Entry([c, '\0'], []), 4);
  }
}

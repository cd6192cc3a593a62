/**
  How long the printed lines become.  The wrapper counts the characters of its own tokens only:
  numerals go past it, so a line can be longer than its counter says.
 */
module HclWidth {
  import opened CText
  import opened HclLex

  // ---------- Lines ----------

  /** How many characters stand behind the last line break. */
  function Column(s: string): (n: nat)
    ensures n <= |s|
  {
    if |s| == 0 || s[|s| - 1] == '\n' then 0 else Column(s[..|s| - 1]) + 1
  }

  /** No line has more than m characters, wherever the text ends. */
  predicate LinesFit(s: string, m: int) {
    Column(s) <= m && (s != "" ==> LinesFit(s[..|s| - 1], m))
  }

  predicate OneLine(w: string) { forall i | 0 <= i < |w| :: w[i] != '\n' }

  lemma {:induction false} ColumnOfWord(s: string, w: string)
    requires OneLine(w)
    ensures Column(s + w) == Column(s) + |w|
  {
    if w == "" {
      assert s + w == s;
    } else {
      var v := w[..|w| - 1];
      ColumnOfWord(s, v);
      assert (s + w)[..|s + w| - 1] == s + v;
      assert (s + w)[|s + w| - 1] == w[|w| - 1];
    }
  }

  lemma ColumnAfterBreak(s: string)
    ensures Column(s + "\n") == 0
  {
  }

  /** Characters without a line break lengthen the last line. */
  lemma {:induction false} WordFits(s: string, w: string, m: int)
    requires OneLine(w)
    ensures LinesFit(s + w, m) <==> LinesFit(s, m) && Column(s) + |w| <= m
  {
    if w == "" {
      assert s + w == s;
    } else {
      var v := w[..|w| - 1];
      assert (s + w)[..|s + w| - 1] == s + v;
      WordFits(s, v, m);
      ColumnOfWord(s, w);
    }
  }

  lemma BreakFits(s: string, m: int)
    ensures LinesFit(s + "\n", m) <==> LinesFit(s, m)
  {
    ColumnAfterBreak(s);
    assert (s + "\n")[..|s|] == s;
    NothingFits(s, m);
  }

  lemma {:induction false} NothingFits(s: string, m: int)
    ensures LinesFit(s, m) ==> 0 <= m
    ensures LinesFit("", m) <==> 0 <= m
  {
  }

  lemma {:induction false} SpacesAreOneLine(n: nat)
    ensures OneLine(Spaces(n))
  {
    if n > 0 { SpacesAreOneLine(n - 1); }
  }

  // ---------- The counter of the wrapper ----------

  /** What print_token writes for a text when cur_pos is c. */
  function Wrap(c: nat, indent: nat, text: string, m: int): string {
    (if |text| + c > m then "\n" + Spaces(indent) else "") + text
  }

  /** cur_pos afterwards. */
  function After(c: nat, indent: nat, text: string, m: int): nat {
    (if |text| + c > m then indent else c) + |text|
  }

  /** cur_pos behind the pieces, when it was c in front of them: direct pieces are not counted. */
  function Counter(ps: seq<Piece>, c: nat): nat {
    if ps == [] then c
    else
      var p, n := ps[|ps| - 1], Counter(ps[..|ps| - 1], c);
      if p.direct then n else (if p.broken then p.indent else n) + |Spell(p.tok)|
  }

  /** The characters of the numerals since the last line break, when there were u in front of the pieces. */
  function Uncounted(ps: seq<Piece>, u: nat): nat {
    if ps == [] then u
    else
      var p, n := ps[|ps| - 1], Uncounted(ps[..|ps| - 1], u);
      if p.direct then n + |Spell(p.tok)| else if p.broken then 0 else n
  }

  /** How print_token breaks lines: a token that would take the counter past m goes to a new line. */
  predicate Wrapped(ps: seq<Piece>, c: nat, m: int) {
    ps != [] ==>
      var p, front := ps[|ps| - 1], ps[..|ps| - 1];
      Wrapped(front, c, m) && (p.broken <==> !p.direct && |Spell(p.tok)| + Counter(front, c) > m)
  }

  /** Only numerals are direct; the one numeral that goes through the wrapper is the 0 that ends a case. */
  predicate NumeralsAreDirect(ps: seq<Piece>) {
    forall p | p in ps :: (p.direct ==> p.tok.Lit?) && (p.tok.Lit? && !p.direct ==> p.tok.text == "0")
  }

  predicate OneLineEach(ps: seq<Piece>) { forall p | p in ps :: OneLine(Spell(p.tok)) }

  lemma WrappedMore(ps: seq<Piece>, p: Piece, c: nat, m: int)
    ensures Wrapped(ps + [p], c, m) <==> Wrapped(ps, c, m) && (p.broken <==> !p.direct && |Spell(p.tok)| + Counter(ps, c) > m)
    ensures Counter(ps + [p], c) ==
      if p.direct then Counter(ps, c) else (if p.broken then p.indent else Counter(ps, c)) + |Spell(p.tok)|
    ensures forall u ::
              Uncounted(ps + [p], u) ==
                (if p.direct then Uncounted(ps, u) + |Spell(p.tok)| else if p.broken then 0 else Uncounted(ps, u))
  {
    assert (ps + [p])[..|ps|] == ps;
  }

  lemma Nothing(c: nat, m: int)
    ensures Wrapped([], c, m) && Counter([], c) == c && Layout([]) == "" && Column("") == 0
    ensures forall u :: Uncounted([], u) == u
  {
  }

  /** A word behind a line break and an indentation, or where the line ends. */
  lemma WordColumn(s: string, broken: bool, indent: nat, w: string, m: int)
    requires OneLine(w)
    ensures var t := s + ((if broken then "\n" + Spaces(indent) else "") + w);
      && Column(t) == (if broken then indent else Column(s)) + |w|
      && (LinesFit(t, m) <==> LinesFit(s, m) && Column(t) <= m)
  {
    hide Column, LinesFit, OneLine, Spaces;
    if broken {
      var b := s + "\n";
      var c := b + Spaces(indent);
      SpacesAreOneLine(indent);
      ColumnAfterBreak(s);
      BreakFits(s, m);
      ColumnOfWord(b, Spaces(indent));
      WordFits(b, Spaces(indent), m);
      ColumnOfWord(c, w);
      WordFits(c, w, m);
      assert s + ("\n" + Spaces(indent) + w) == c + w;
    } else {
      assert "" + w == w;
      ColumnOfWord(s, w);
      WordFits(s, w, m);
    }
  }

  /**
    Every line fits exactly if the text in front of the pieces does, and the counter and the numerals
    that it leaves out fit at every point.
   */
  lemma {:induction false} FitsIffCounted(head: string, ps: seq<Piece>, c: nat, u: nat, m: int)
    requires Wrapped(ps, c, m) && OneLineEach(ps) && Column(head) == c + u
    ensures Column(head + Layout(ps)) == Counter(ps, c) + Uncounted(ps, u)
    ensures LinesFit(head + Layout(ps), m) <==>
      LinesFit(head, m) && forall i | 0 < i <= |ps| :: Counter(ps[..i], c) + Uncounted(ps[..i], u) <= m
  {
    hide Layout, Counter, Uncounted, Column, LinesFit, Spell, Wrapped, OneLine;
    Nothing(c, m);
    if ps == [] {
      assert ps == [] && head + "" == head;
    } else {
      var front, p := ps[..|ps| - 1], ps[|ps| - 1];
      assert ps == front + [p] && p in ps;
      WrappedMore(front, p, c, m);
      FitsIffCounted(head, front, c, u, m);
      LastPiece(front, p);
      var w := (if p.broken then "\n" + Spaces(p.indent) else "") + Spell(p.tok);
      WordColumn(head + Layout(front), p.broken, p.indent, Spell(p.tok), m);
      assert head + Layout(ps) == (head + Layout(front)) + w;
      assert ps[..|ps|] == ps;
      assert forall i | 0 < i <= |front| :: front[..i] == ps[..i];
    }
  }

  /** The counter alone passes the column only behind a token that is too long for a line of its own. */
  lemma {:induction false} CounterFits(ps: seq<Piece>, c: nat, m: int)
    requires Wrapped(ps, c, m) && c <= m && forall p | p in ps && p.broken :: p.indent + |Spell(p.tok)| <= m
    ensures Counter(ps, c) <= m
  {
    hide Spell;
    if ps != [] {
      var front, p := ps[..|ps| - 1], ps[|ps| - 1];
      assert ps == front + [p];
      CounterFits(front, c, m);
    }
  }

  /** Each token that was put on a new line fits there behind its indentation. */
  predicate TokensFit(ps: seq<Piece>, m: int) {
    forall p | p in ps && p.broken :: p.indent + |Spell(p.tok)| <= m
  }

  /** Wherever numerals were printed since the last break, they fit into what the counter has left. */
  predicate NumeralsFit(ps: seq<Piece>, c: nat, m: int) {
    forall i | 0 < i <= |ps| && Uncounted(ps[..i], 0) > 0 :: Counter(ps[..i], c) + Uncounted(ps[..i], 0) <= m
  }

  /** With c characters on the line already, all of them counted, every line fits exactly if both hold. */
  lemma LinesFitIff(head: string, ps: seq<Piece>, c: nat, m: int)
    requires Wrapped(ps, c, m) && OneLineEach(ps) && Column(head) == c
    ensures LinesFit(head + Layout(ps), m) <==> LinesFit(head, m) && TokensFit(ps, m) && NumeralsFit(ps, c, m)
  {
    hide Layout, Counter, Uncounted, LinesFit, Spell, Wrapped, OneLineEach;
    FitsIffCounted(head, ps, c, 0, m);
    if LinesFit(head + Layout(ps), m) {
      forall p | p in ps && p.broken ensures p.indent + |Spell(p.tok)| <= m {
        var i :| 0 <= i < |ps| && ps[i] == p;
        BrokenCounter(ps, c, m, i + 1);
        assert Counter(ps[..i + 1], c) + Uncounted(ps[..i + 1], 0) <= m;
      }
    } else if LinesFit(head, m) && TokensFit(ps, m) {
      var i :| 0 < i <= |ps| && Counter(ps[..i], c) + Uncounted(ps[..i], 0) > m;
      FrontIsWrapped(ps, c, m, i);
      LastLineFits(head, m);
      CounterFits(ps[..i], c, m);
    }
  }

  lemma LastLineFits(s: string, m: int)
    requires LinesFit(s, m)
    ensures Column(s) <= m
  {
  }

  lemma {:induction false} FrontIsWrapped(ps: seq<Piece>, c: nat, m: int, i: nat)
    requires Wrapped(ps, c, m) && i <= |ps|
    ensures Wrapped(ps[..i], c, m)
  {
    if i < |ps| {
      var front := ps[..|ps| - 1];
      FrontIsWrapped(front, c, m, i);
      assert front[..i] == ps[..i];
    } else {
      assert ps[..i] == ps;
    }
  }

  lemma BrokenCounter(ps: seq<Piece>, c: nat, m: int, i: nat)
    requires Wrapped(ps, c, m) && 0 < i <= |ps| && ps[i - 1].broken
    ensures Counter(ps[..i], c) == ps[i - 1].indent + |Spell(ps[i - 1].tok)|
  {
    FrontIsWrapped(ps, c, m, i);
    WrappedMore(ps[..i - 1], ps[i - 1], c, m);
    assert ps[..i] == ps[..i - 1] + [ps[i - 1]];
  }

  // ---------- A whole function ----------

  const RETURN := "    return "

  function Title(name: string): string { "long long gen_" + name + "()" }

  /** cur_pos when the expression begins. */
  function Start(first: nat, m: int): nat { After(0, first, RETURN, m) }

  /** A text on a line of its own. */
  function Line(first: nat, text: string, m: int): string { Wrap(0, first, text, m) + "\n" }

  /** What gen_funct prints in front of the expression. */
  function Opening(name: string, first: nat, m: int): string {
    Line(first, Title(name), m) + Line(first, "{", m) + Wrap(0, first, RETURN, m)
  }

  /** What it prints behind the expression, when cur_pos is c. */
  function Ending(c: nat, first: nat, m: int): string {
    Wrap(c, first, ";", m) + "\n" + Line(first, "}", m) + "\n"
  }

  function FunctionText(name: string, ps: seq<Piece>, first: nat, m: int): string {
    Opening(name, first, m) + Layout(ps) + Ending(Counter(ps, Start(first, m)), first, m)
  }

  /** One text through the wrapper, behind a line with u characters that are not counted. */
  lemma WrapFits(s: string, c: nat, u: nat, indent: nat, text: string, m: int)
    requires OneLine(text) && Column(s) == c + u
    ensures var t := s + Wrap(c, indent, text, m);
      && Column(t) == After(c, indent, text, m) + (if |text| + c > m then 0 else u)
      && (LinesFit(t, m) <==> LinesFit(s, m) && Column(t) <= m)
  {
    hide Column, LinesFit, OneLine, Spaces;
    WordColumn(s, |text| + c > m, indent, text, m);
  }

  lemma WordsAreOneLine(name: string)
    requires OneLine(name)
    ensures OneLine(Title(name)) && |Title(name)| == |name| + 16
    ensures OneLine("{") && OneLine("}") && OneLine(";") && OneLine(RETURN) && |RETURN| == 11
  {
  }

  lemma LineFits(s: string, first: nat, text: string, m: int)
    requires OneLine(text) && Column(s) == 0
    ensures Column(s + Line(first, text, m)) == 0
    ensures LinesFit(s + Line(first, text, m), m) <==> LinesFit(s, m) && |text| <= m
  {
    hide Column, LinesFit, OneLine, Wrap;
    var a := s + Wrap(0, first, text, m);
    WrapFits(s, 0, 0, first, text, m);
    ColumnAfterBreak(a);
    BreakFits(a, m);
    assert s + Line(first, text, m) == a + "\n";
  }

  lemma OpeningFits(before: string, name: string, first: nat, m: int)
    requires OneLine(name) && Column(before) == 0
    ensures Column(before + Opening(name, first, m)) == Start(first, m)
    ensures LinesFit(before + Opening(name, first, m), m) <==> LinesFit(before, m) && |name| + 16 <= m
  {
    WordsAreOneLine(name);
    hide Column, LinesFit, OneLine, Wrap, Line, RETURN, Title;
    var a := before + Line(first, Title(name), m);
    var b := a + Line(first, "{", m);
    LineFits(before, first, Title(name), m);
    LineFits(a, first, "{", m);
    WrapFits(b, 0, 0, first, RETURN, m);
    assert before + Opening(name, first, m) == b + Wrap(0, first, RETURN, m);
  }

  lemma EndingFits(s: string, c: nat, u: nat, first: nat, m: int)
    requires Column(s) == c + u
    ensures Column(s + Ending(c, first, m)) == 0
    ensures LinesFit(s + Ending(c, first, m), m) <==>
            LinesFit(s, m) && 1 <= m && if 1 + c > m then first + 1 <= m else c + u + 1 <= m
  {
    WordsAreOneLine("");
    hide Column, LinesFit, OneLine, Wrap, Line, RETURN, Title;
    var a := s + Wrap(c, first, ";", m);
    var b := a + "\n" + Line(first, "}", m);
    WrapFits(s, c, u, first, ";", m);
    ColumnAfterBreak(a);
    BreakFits(a, m);
    LineFits(a + "\n", first, "}", m);
    ColumnAfterBreak(b);
    BreakFits(b, m);
    assert s + Ending(c, first, m) == b + "\n";
  }

  /** The semicolon behind the pieces fits, on its own line or behind the numerals that are not counted. */
  predicate SemicolonFits(ps: seq<Piece>, first: nat, m: int) {
    var c := Counter(ps, Start(first, m));
    if 1 + c > m then first + 1 <= m else c + Uncounted(ps, 0) + 1 <= m
  }

  /**
    Every line of a generated function stays within the column exactly if its title does, each token of
    the expression that was put on a new line fits there, the numerals printed since the last break
    always fit into what the counter has left, and so does the semicolon.
   */
  lemma FunctionFitsIff(before: string, name: string, ps: seq<Piece>, first: nat, m: int)
    requires OneLine(name) && OneLineEach(ps) && Column(before) == 0 && Wrapped(ps, Start(first, m), m)
    ensures LinesFit(before + FunctionText(name, ps, first, m), m) <==>
      && LinesFit(before, m) && |name| + 16 <= m
      && TokensFit(ps, m) && NumeralsFit(ps, Start(first, m), m) && SemicolonFits(ps, first, m)
    ensures Column(before + FunctionText(name, ps, first, m)) == 0
  {
    hide Column, LinesFit, OneLine, Opening, Ending, Layout, Start, Counter, Uncounted, Wrapped, OneLineEach, TokensFit, NumeralsFit;
    var head, c := before + Opening(name, first, m), Start(first, m);
    var s := head + Layout(ps);
    OpeningFits(before, name, first, m);
    LinesFitIff(head, ps, c, m);
    FitsIffCounted(head, ps, c, 0, m);
    assert before + FunctionText(name, ps, first, m) == s + Ending(Counter(ps, c), first, m);
    EndingFits(s, Counter(ps, c), Uncounted(ps, 0), first, m);
  }
}

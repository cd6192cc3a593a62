/**
  gen_expr writing C text through the line wrapper: whatever lines it breaks, the tokens are
  those of Gen, and C reads them as the HCL expression.
 */
module HclText {
  import opened CText
  import opened HclGen
  import opened HclLex
  import opened HclReads
  import opened HclMeaning
  import opened HclWidth
  import opened Options

  // ---------- The line wrapper ----------

  /** The pieces are those of the expression that is being printed; head is everything in front of it. */
  class Outgen {
    const maxColumn: int
    const firstIndent: nat
    const otherIndents: nat
    var curPos: nat
    var indent: nat
    var out: string
    ghost var head: string
    ghost var start: nat
    ghost var pieces: seq<Piece>

    /** outgen_init */
    constructor (maxColumn: int, firstIndent: nat, otherIndents: nat)
      ensures Valid() && Fresh() && out == ""
      ensures this.maxColumn == maxColumn && this.firstIndent == firstIndent && this.otherIndents == otherIndents
    {
      this.maxColumn, this.firstIndent, this.otherIndents := maxColumn, firstIndent, otherIndents;
      curPos, indent, out := 0, firstIndent, "";
      head, start, pieces := "", 0, [];
    }

    ghost predicate Valid()
      reads this
    {
      && out == head + Layout(pieces) && curPos == Counter(pieces, start)
      && Wrapped(pieces, start, maxColumn) && NumeralsAreDirect(pieces)
    }

    /** At the beginning of a line, with the indentation reset. */
    ghost predicate Fresh()
      reads this
    {
      curPos == 0 && indent == firstIndent
    }

    /** The tokens of the expression so far. */
    ghost function Printed(): seq<Tok>
      reads this
    {
      Tokens(pieces)
    }

    /** print_token: on a new line if the text would pass the last column. */
    method Emit(text: string)
      modifies `out, `curPos
      ensures out == old(out) + Wrap(old(curPos), indent, text, maxColumn)
      ensures curPos == After(old(curPos), indent, text, maxColumn)
      ensures curPos <= maxColumn || curPos == indent + |text|
    {
      ghost var was := out;
      if |text| + curPos > maxColumn {
        out := out + "\n";
        Indent();
        curPos := indent;
        assert out == was + ("\n" + Spaces(indent));
      } else {
        assert out == was + "";
      }
      out := out + text;
      curPos := curPos + |text|;
    }

    /** A token of an expression. */
    method PrintToken(t: Tok)
      requires Valid() && (t.Lit? ==> t == Lit("0"))
      modifies `out, `curPos, `pieces
      ensures Valid() && Printed() == old(Printed()) + [t]
      ensures pieces == old(pieces) + [Piece(|Spell(t)| + old(curPos) > maxColumn, indent, false, t)]
      ensures curPos <= maxColumn || curPos == indent + |Spell(t)|
    {
      hide Layout, Tokens, Spell, Spaces, Counter, Wrapped;
      ghost var p := Piece(|Spell(t)| + curPos > maxColumn, indent, false, t);
      LastPiece(pieces, p);
      WrappedMore(pieces, p, start, maxColumn);
      Emit(Spell(t));
      assert head + (Layout(pieces) + (if p.broken then "\n" + Spaces(p.indent) else "") + Spell(t)) ==
             head + Layout(pieces) + ((if p.broken then "\n" + Spaces(p.indent) else "") + Spell(t));
      pieces := pieces + [p];
    }

    /** A text around the expressions. */
    method PrintText(text: string)
      requires Valid()
      modifies `out, `curPos, `head, `start, `pieces
      ensures Valid() && pieces == []
      ensures out == old(out) + Wrap(old(curPos), indent, text, maxColumn)
      ensures curPos == After(old(curPos), indent, text, maxColumn)
      ensures head == out && start == curPos
    {
      hide Wrap, After;
      Emit(text);
      head, start, pieces := out, curPos, [];
      assert out + "" == out;
    }

    /** outgen_terminate */
    method Terminate()
      requires Valid()
      modifies `out, `curPos, `indent, `head, `start, `pieces
      ensures Valid() && Fresh() && out == old(out) + "\n"
    {
      out := out + "\n";
      curPos, indent := 0, firstIndent;
      head, start, pieces := out, 0, [];
      assert out + "" == out;
    }

    method Indent()
      modifies this`out
      ensures out == old(out) + Spaces(indent)
    {
      var i := 0;
      while i < indent
        invariant 0 <= i <= indent && out == old(out) + Spaces(i)
      {
        out := out + " ";
        i := i + 1;
      }
    }

    /** A numeral goes to the file directly; the wrapper does not see it. */
    method PutNumeral(text: string)
      requires Valid()
      modifies `out, `pieces
      ensures Valid() && Printed() == old(Printed()) + [Lit(text)]
    {
      hide Layout, Tokens, Counter, Wrapped;
      LastPiece(pieces, Piece(false, 0, true, Lit(text)));
      WrappedMore(pieces, Piece(false, 0, true, Lit(text)), start, maxColumn);
      out := out + text;
      assert head + (Layout(pieces) + "" + text) == head + Layout(pieces) + text;
      pieces := pieces + [Piece(false, 0, true, Lit(text))];
    }

    method UpIndent()
      requires Valid()
      modifies this`indent
      ensures Valid() && Printed() == old(Printed()) && indent == old(indent) + otherIndents
    {
      indent := indent + otherIndents;
    }

    method DownIndent()
      requires Valid() && indent >= otherIndents
      modifies this`indent
      ensures Valid() && Printed() == old(Printed()) && indent == old(indent) - otherIndents
    {
      indent := indent - otherIndents;
    }
  }

  // ---------- gen_expr ----------

  /** Every pointer that gen_expr follows is there, and every name is in the table. */
  predicate Shaped(n: Node, table: Table)
    decreases Weight(n), 1
  {
    n.N? &&
    match n.kind
    case KVar(name) => Find(table, name).At?
    case KNum(_) => true
    case KNot => Shaped(n.arg1, table)
    case KEle => Shaped(n.arg1, table) && ShapedEls(n.arg2, table)
    case KCase => ShapedArms(n, table)
    case _ => Shaped(n.arg1, table) && Shaped(n.arg2, table)
  }

  predicate ShapedEls(ele: Node, table: Table)
    decreases Weight(ele), 2
  {
    ele.N? ==> Shaped(ele, table) && ShapedEls(ele.next, table)
  }

  predicate ShapedArms(ele: Node, table: Table)
    decreases Weight(ele), 0
  {
    ele.N? ==>
      Shaped(ele.arg1, table) && Shaped(ele.arg2, table) && (IsDefault(ele.arg1) || ShapedArms(ele.next, table))
  }

  /** The parts of a node that are printed. */
  lemma Parts(n: Node, table: Table)
    requires Shaped(n, table)
    ensures n.kind.KNot? ==> Shaped(n.arg1, table) && Gen(n, table) == [Bang] + Gen(n.arg1, table)
    ensures n.kind.KAnd? || n.kind.KOr? || n.kind.KComp? ==> Shaped(n.arg1, table) && Shaped(n.arg2, table)
    ensures n.kind.KAnd? ==> Gen(n, table) == [LParen] + (Gen(n.arg1, table) + ([Amp] + (Gen(n.arg2, table) + [RParen])))
    ensures n.kind.KOr? ==> Gen(n, table) == [LParen] + (Gen(n.arg1, table) + ([Bar] + (Gen(n.arg2, table) + [RParen])))
    ensures n.kind.KComp? ==>
      Gen(n, table) == [LParen] + (Gen(n.arg1, table) + ([Cmp(n.kind.op)] + (Gen(n.arg2, table) + [RParen])))
    ensures n.kind.KEle? ==>
      && Shaped(n.arg1, table) && ShapedEls(n.arg2, table)
      && Gen(n, table) == [LParen] + (GenEls(n.arg1, n.arg2, table) + [RParen])
    ensures n.kind.KCase? ==> ShapedArms(n, table) && Gen(n, table) == [LParen] + (GenArms(n, table) + [RParen])
    ensures n.kind.KNum? ==> Gen(n, table) == [Lit(n.kind.text)]
    ensures n.kind.KVar? ==> Find(table, n.kind.name).At? && Gen(n, table) == [Sig(Find(table, n.kind.name).sym.text)]
    ensures n.N? && Weight(n.arg1) + Weight(n.arg2) < Weight(n)
  {
  }

  method GenExpr(n: Node, table: Table, g: Outgen)
    requires g.Valid() && Shaped(n, table)
    modifies g`out, g`curPos, g`indent, g`pieces
    ensures g.Valid() && g.Printed() == old(g.Printed()) + Gen(n, table) && g.indent == old(g.indent)
    decreases Weight(n), 1
  {
    hide Shaped, Gen, GenEls, GenArms, Weight, Outgen.Valid, Outgen.Printed;
    ghost var start := g.Printed();
    Parts(n, table);
    match n.kind
    case KVar(name) => { g.PrintToken(Sig(Find(table, name).sym.text)); }
    case KNum(text) => { g.PutNumeral(text); }
    case KNot => {
      g.PrintToken(Bang);
      GenExpr(n.arg1, table, g);
      assert start + [Bang] + Gen(n.arg1, table) == start + ([Bang] + Gen(n.arg1, table));
    }
    case KAnd => { GenPair(n.arg1, Amp, n.arg2, table, g); }
    case KOr => { GenPair(n.arg1, Bar, n.arg2, table, g); }
    case KComp(op) => { GenPair(n.arg1, Cmp(op), n.arg2, table, g); }
    case KEle => { GenSet(n.arg1, n.arg2, table, g); }
    case KCase => { GenCase(n, table, g); }
  }

  lemma Chain(start: seq<Tok>, a: seq<Tok>, op: Tok, b: seq<Tok>)
    ensures start + [LParen] + a + [op] + b + [RParen] == start + ([LParen] + (a + ([op] + (b + [RParen]))))
  {
  }

  /** N_AND, N_OR and N_COMP: both operands in parentheses. */
  method GenPair(l: Node, op: Tok, r: Node, table: Table, g: Outgen)
    requires g.Valid() && Shaped(l, table) && Shaped(r, table) && !op.Lit?
    modifies g`out, g`curPos, g`indent, g`pieces
    ensures g.Valid() && g.indent == old(g.indent)
    ensures g.Printed() == old(g.Printed()) + ([LParen] + (Gen(l, table) + ([op] + (Gen(r, table) + [RParen]))))
    decreases Weight(l) + Weight(r), 2
  {
    hide Shaped, Gen, Weight, Outgen.Valid, Outgen.Printed;
    ghost var start := g.Printed();
    g.PrintToken(LParen);
    g.UpIndent();
    GenExpr(l, table, g);
    g.PrintToken(op);
    GenExpr(r, table, g);
    g.PrintToken(RParen);
    g.DownIndent();
    Chain(start, Gen(l, table), op, Gen(r, table));
  }

  lemma SetStep(p: seq<Tok>, x: Node, ele: Node, table: Table)
    requires ele.N? && ShapedEls(ele, table)
    ensures Shaped(ele, table) && ShapedEls(ele.next, table) && 0 <= Weight(ele.next) < Weight(ele)
    ensures p + Gen(x, table) + [Cmp(Eq)] + Gen(ele, table) + (if ele.next.N? then [BarBar] else []) + GenEls(x, ele.next, table)
         == p + GenEls(x, ele, table)
  {
    hide Gen, Shaped;
    var a, b, sep, more := Gen(x, table), Gen(ele, table), if ele.next.N? then [BarBar] else [], GenEls(x, ele.next, table);
    assert GenEls(x, ele, table) == a + ([Cmp(Eq)] + (b + (sep + more)));
    assert p + a + [Cmp(Eq)] + b + sep + more == p + (a + ([Cmp(Eq)] + (b + (sep + more))));
  }

  lemma ArmStep(p: seq<Tok>, ele: Node, table: Table)
    requires ele.N? && ShapedArms(ele, table)
    ensures Shaped(ele.arg1, table) && Shaped(ele.arg2, table) && (IsDefault(ele.arg1) || ShapedArms(ele.next, table))
    ensures 0 <= Weight(ele.next) < Weight(ele) && Weight(ele.arg1) < Weight(ele) && Weight(ele.arg2) < Weight(ele)
    ensures IsDefault(ele.arg1) ==> p + Gen(ele.arg2, table) == p + GenArms(ele, table)
    ensures !IsDefault(ele.arg1) ==>
      p + Gen(ele.arg1, table) + [Quest] + Gen(ele.arg2, table) + [Colon] + GenArms(ele.next, table) == p + GenArms(ele, table)
  {
    hide Gen, Shaped, IsDefault;
    if !IsDefault(ele.arg1) {
      var a, b, more := Gen(ele.arg1, table), Gen(ele.arg2, table), GenArms(ele.next, table);
      assert GenArms(ele, table) == a + ([Quest] + (b + ([Colon] + more)));
      assert p + a + [Quest] + b + [Colon] + more == p + (a + ([Quest] + (b + ([Colon] + more))));
    }
  }

  lemma ChainEnds(p: seq<Tok>, x: Node, table: Table)
    ensures p + GenEls(x, Null, table) == p && p + GenArms(Null, table) == p + [Lit("0")]
  {
  }

  /** N_ELE: the value is compared with each element. */
  method GenSet(x: Node, els: Node, table: Table, g: Outgen)
    requires g.Valid() && Shaped(x, table) && ShapedEls(els, table)
    modifies g`out, g`curPos, g`indent, g`pieces
    ensures g.Valid() && g.indent == old(g.indent)
    ensures g.Printed() == old(g.Printed()) + ([LParen] + (GenEls(x, els, table) + [RParen]))
    decreases Weight(x) + Weight(els), 2
  {
    hide Shaped, ShapedEls, Gen, GenEls, Weight, Outgen.Valid, Outgen.Printed;
    ghost var before := g.Printed();
    g.PrintToken(LParen);
    g.UpIndent();
    ghost var start := g.Printed();
    var ele := els;
    while ele.N?
      invariant g.Valid() && g.indent == old(g.indent) + g.otherIndents && ShapedEls(ele, table)
      invariant Weight(ele) <= Weight(els)
      invariant g.Printed() + GenEls(x, ele, table) == start + GenEls(x, els, table)
      decreases Weight(ele)
    {
      SetStep(g.Printed(), x, ele, table);
      GenExpr(x, table, g);
      g.PrintToken(Cmp(Eq));
      GenExpr(ele, table, g);
      if ele.next.N? {
        g.PrintToken(BarBar);
      } else {
        assert g.Printed() + [] == g.Printed();
      }
      ele := ele.next;
    }
    ChainEnds(g.Printed(), x, table);
    g.PrintToken(RParen);
    g.DownIndent();
    assert start == before + [LParen];
    assert before + [LParen] + GenEls(x, els, table) + [RParen] == before + ([LParen] + (GenEls(x, els, table) + [RParen]));
  }

  /** N_CASE: conditional expressions up to the first arm that is always taken. */
  method GenCase(n: Node, table: Table, g: Outgen)
    requires g.Valid() && ShapedArms(n, table)
    modifies g`out, g`curPos, g`indent, g`pieces
    ensures g.Valid() && g.indent == old(g.indent)
    ensures g.Printed() == old(g.Printed()) + ([LParen] + (GenArms(n, table) + [RParen]))
    decreases Weight(n), 0
  {
    hide Shaped, ShapedArms, Gen, GenArms, Weight, IsDefault, Outgen.Valid, Outgen.Printed;
    ghost var before := g.Printed();
    g.PrintToken(LParen);
    g.UpIndent();
    ghost var start := g.Printed();
    var done := false;
    var ele := n;
    while ele.N? && !done
      invariant g.Valid() && g.indent == old(g.indent) + g.otherIndents && (done || ShapedArms(ele, table))
      invariant Weight(ele) <= Weight(n)
      invariant g.Printed() + (if done then [] else GenArms(ele, table)) == start + GenArms(n, table)
      decreases Weight(ele)
    {
      ArmStep(g.Printed(), ele, table);
      if IsDefault(ele.arg1) {
        GenExpr(ele.arg2, table, g);
        done := true;
        assert g.Printed() + [] == g.Printed();
      } else {
        GenExpr(ele.arg1, table, g);
        g.PrintToken(Quest);
        GenExpr(ele.arg2, table, g);
        g.PrintToken(Colon);
      }
      ele := ele.next;
    }
    assert g.Printed() + [] == g.Printed();
    ChainEnds(g.Printed(), n, table);
    if !done {
      g.PrintToken(Lit("0"));
    }
    g.PrintToken(RParen);
    g.DownIndent();
    assert start == before + [LParen];
    assert before + [LParen] + GenArms(n, table) + [RParen] == before + ([LParen] + (GenArms(n, table) + [RParen]));
  }

  lemma {:induction false} BuildIsShaped(e: Expr, table: Table)
    requires Known(e, table) && Readable(e)
    ensures Shaped(Build(e), table)
    decreases e, 0
  {
    match e
    case Var(_) => {}
    case Num(_) => {}
    case Not(x) => { BuildIsShaped(x, table); }
    case And(l, r) => { BuildIsShaped(l, table); BuildIsShaped(r, table); }
    case Or(l, r) => { BuildIsShaped(l, table); BuildIsShaped(r, table); }
    case Comp(_, l, r) => { BuildIsShaped(l, table); BuildIsShaped(r, table); }
    case In(x, els) => { BuildIsShaped(x, table); ElsAreShaped(els, table); }
    case Case(arms) => { ArmsAreShaped(arms, table); assert BuildArms(arms).kind.KCase?; }
  }

  lemma GuardIsShaped(g: Expr, table: Table)
    requires Known(g, table) && (IsOne(g) || Readable(g))
    ensures Shaped(Build(g), table) && (IsDefault(Build(g)) <==> IsOne(g))
    decreases g, 1
  {
    DefaultGuard(g);
    if !IsOne(g) { BuildIsShaped(g, table); }
  }

  /** The chain of a set: gen_expr never follows a missing pointer, not even from a case into what follows it. */
  lemma {:induction false} ElsAreShaped(els: Exprs, table: Table)
    requires KnownEls(els, table) && ReadableEls(els)
    ensures BuildEls(els).N? && ShapedEls(BuildEls(els), table)
    decreases els
  {
    hide Build, Shaped, Readable, EndsCase, IsOne;
    var e, m := els.e, if els.One? then Null else BuildEls(els.rest);
    ElsHead(els, table);
    ConcatNull(Build(e));
    assert BuildEls(els) == Concat(Build(e), m);
    if els.More? { ElsAreShaped(els.rest, table); }
    if e.Case? {
      OneArmIsReadable(e.arms, table);
      GuardIsShaped(e.arms.guard, table);
      BuildIsShaped(e.arms.value, table);
      BuildOfCase(e.arms);
      ArmChain(e.arms, m);
      if els.More? && EndsCase(els.rest.e) { NextIsShaped(els.rest, table); }
      CaseIsShaped(BuildEls(els), table);
    } else {
      BuildIsShaped(e, table);
      Single(e, m);
      NextNotShaped(Build(e), m, table);
    }
  }

  lemma OneArmIsReadable(arms: Arms, table: Table)
    requires OneArm(arms) && Readable(Case(arms)) && Known(Case(arms), table)
    ensures Known(arms.guard, table) && Known(arms.value, table)
    ensures Readable(arms.value) && (IsOne(arms.guard) || Readable(arms.guard))
  {
  }

  lemma CaseIsShaped(n: Node, table: Table)
    requires n.N? && n.kind.KCase?
    ensures Shaped(n, table) <==> ShapedArms(n, table)
  {
  }

  lemma NextNotShaped(n: Node, m: Node, table: Table)
    requires n.N? && !n.kind.KCase?
    ensures Shaped(n.(next := m), table) == Shaped(n, table)
  {
  }

  /** Such an element is walked into as an arm that is always taken. */
  predicate DefaultArm(n: Node) {
    && n.N? && (n.kind.KAnd? || n.kind.KOr? || n.kind.KComp? || n.kind.KEle?)
    && IsDefault(n.arg1) && (n.kind.KEle? ==> n.arg2.N?)
  }

  lemma EndsWithDefault(e: Expr, m: Node, table: Table)
    requires Known(e, table) && EndsCase(e) && !e.Case?
    ensures DefaultArm(Concat(Build(e), m))
  {
    hide IsDefault, IsOne, IsZero, BuildEls;
    Single(e, m);
    match e
    case And(l, r) => { DefaultGuard(l); }
    case Or(l, r) => { DefaultGuard(l); }
    case Comp(_, l, r) => { DefaultGuard(l); }
    case In(x, inner) => { DefaultGuard(x); ElsAreFirm(inner, table); }
  }

  lemma DefaultArmIsShaped(n: Node, table: Table)
    requires DefaultArm(n) && Shaped(n, table)
    ensures ShapedArms(n, table)
  {
    hide IsDefault;
  }

  /** An element that ends a case may be walked into from that case. */
  lemma NextIsShaped(els: Exprs, table: Table)
    requires KnownEls(els, table) && EndsCase(els.e) && ShapedEls(BuildEls(els), table) && BuildEls(els).N?
    ensures ShapedArms(BuildEls(els), table)
  {
    hide Shaped, DefaultArm, Build, Known, IsOne;
    var e, m := els.e, if els.One? then Null else BuildEls(els.rest);
    ConcatNull(Build(e));
    assert BuildEls(els) == Concat(Build(e), m);
    if e.Case? {
      BuildOfCase(e.arms);
      ArmChain(e.arms, m);
      CaseIsShaped(BuildEls(els), table);
    } else {
      EndsWithDefault(e, m, table);
      DefaultArmIsShaped(BuildEls(els), table);
    }
  }

  lemma {:induction false} ArmsAreShaped(arms: Arms, table: Table)
    requires KnownArms(arms, table) && ReadableArms(arms)
    ensures ShapedArms(BuildArms(arms), table)
    decreases arms
  {
    hide Build, Shaped, Readable, IsOne;
    if arms.Arm? {
      GuardIsShaped(arms.guard, table);
      BuildIsShaped(arms.value, table);
      if !IsOne(arms.guard) { ArmsAreShaped(arms.rest, table); }
      ArmChain(arms, Null);
      ConcatNull(BuildArms(arms));
      ConcatNull(BuildArms(arms.rest));
    }
  }

  // ---------- The characters ----------

  /** Numerals are digits, and every signal's C text is one name without a closing parenthesis. */
  predicate SpeltNode(n: Node, table: Table) {
    n.N? ==>
      && (n.kind.KNum? ==> IsNumeral(n.kind.text))
      && (n.kind.KVar? && Find(table, n.kind.name).At? ==> IsName(Find(table, n.kind.name).sym.text))
      && SpeltNode(n.arg1, table) && SpeltNode(n.arg2, table) && SpeltNode(n.next, table)
  }

  predicate Sound(ts: seq<Tok>) { AllSpelt(ts) && NoNumeralPair(ts) }

  lemma SoundJoined(a: seq<Tok>, t: Tok, b: seq<Tok>)
    requires Sound(a) && Sound(b) && !t.Lit? && !t.Sig?
    ensures Sound(a + ([t] + b))
  {
    NoPairJoined(a, t, b);
  }

  lemma SoundEnclosed(s: seq<Tok>)
    requires Sound(s)
    ensures Sound([LParen] + (s + [RParen]))
  {
    SoundJoined(s, RParen, []);
    SoundJoined([], LParen, s + [RParen]);
    assert s + ([RParen] + []) == s + [RParen];
    assert [] + ([LParen] + (s + [RParen])) == [LParen] + (s + [RParen]);
  }

  lemma SoundPair(a: seq<Tok>, t: Tok, b: seq<Tok>)
    requires Sound(a) && Sound(b) && !t.Lit? && !t.Sig?
    ensures Sound([LParen] + (a + ([t] + (b + [RParen]))))
  {
    hide Sound;
    SoundJoined(a, t, b);
    SoundEnclosed(a + ([t] + b));
    assert (a + ([t] + b)) + [RParen] == a + ([t] + (b + [RParen]));
  }

  lemma {:induction false} GenIsSound(n: Node, table: Table)
    requires SpeltNode(n, table)
    ensures Sound(Gen(n, table))
    decreases Weight(n), 1
  {
    if n.N? {
      match n.kind
      case KVar(_) => {}
      case KNum(_) => {}
      case KNot => {
        hide Sound;
        GenIsSound(n.arg1, table);
        OneToken();
        SoundJoined([], Bang, Gen(n.arg1, table));
        assert [] + ([Bang] + Gen(n.arg1, table)) == [Bang] + Gen(n.arg1, table);
      }
      case KAnd => { PairIsSound(n.arg1, Amp, n.arg2, table); }
      case KOr => { PairIsSound(n.arg1, Bar, n.arg2, table); }
      case KComp(op) => { PairIsSound(n.arg1, Cmp(op), n.arg2, table); }
      case KEle => { SetIsSound(n.arg1, n.arg2, table); SoundEnclosed(GenEls(n.arg1, n.arg2, table)); }
      case KCase => { ArmsAreSound(n, table); SoundEnclosed(GenArms(n, table)); }
    }
  }

  lemma OneToken()
    ensures Sound([]) && Sound([Lit("0")])
  {
  }

  lemma PairIsSound(l: Node, op: Tok, r: Node, table: Table)
    requires SpeltNode(l, table) && SpeltNode(r, table) && !op.Lit? && !op.Sig?
    ensures Sound([LParen] + (Gen(l, table) + ([op] + (Gen(r, table) + [RParen]))))
    decreases Weight(l) + Weight(r), 2
  {
    hide Sound, Gen, SpeltNode;
    GenIsSound(l, table);
    GenIsSound(r, table);
    SoundPair(Gen(l, table), op, Gen(r, table));
  }

  lemma {:induction false} SetIsSound(x: Node, ele: Node, table: Table)
    requires SpeltNode(x, table) && SpeltNode(ele, table)
    ensures Sound(GenEls(x, ele, table))
    decreases Weight(x) + Weight(ele), 2
  {
    hide Sound, Gen;
    OneToken();
    if ele.N? {
      var a, b, more := Gen(x, table), Gen(ele, table), GenEls(x, ele.next, table);
      GenIsSound(x, table);
      GenIsSound(ele, table);
      SetIsSound(x, ele.next, table);
      var tail := if ele.next.N? then b + ([BarBar] + more) else b;
      if ele.next.N? { SoundJoined(b, BarBar, more); }
      SoundJoined(a, Cmp(Eq), tail);
      assert b + ((if ele.next.N? then [BarBar] else []) + more) == tail;
    }
  }

  lemma {:induction false} ArmsAreSound(ele: Node, table: Table)
    requires SpeltNode(ele, table)
    ensures Sound(GenArms(ele, table))
    decreases Weight(ele), 0
  {
    hide Sound, Gen, IsDefault;
    OneToken();
    if ele.N? {
      GenIsSound(ele.arg2, table);
      if !IsDefault(ele.arg1) {
        GenIsSound(ele.arg1, table);
        ArmsAreSound(ele.next, table);
        SoundJoined(Gen(ele.arg2, table), Colon, GenArms(ele.next, table));
        SoundJoined(Gen(ele.arg1, table), Quest, Gen(ele.arg2, table) + ([Colon] + GenArms(ele.next, table)));
      }
    }
  }

  /** Numerals as the HCL lexer makes them. */
  predicate Lexical(e: Expr) {
    match e
    case Var(_) => true
    case Num(text) => IsNumeral(text)
    case Not(x) => Lexical(x)
    case And(l, r) => Lexical(l) && Lexical(r)
    case Or(l, r) => Lexical(l) && Lexical(r)
    case Comp(_, l, r) => Lexical(l) && Lexical(r)
    case In(x, els) => Lexical(x) && LexicalEls(els)
    case Case(arms) => LexicalArms(arms)
  }

  predicate LexicalEls(els: Exprs) { Lexical(els.e) && (els.More? ==> LexicalEls(els.rest)) }

  predicate LexicalArms(arms: Arms) {
    arms.Arm? ==> Lexical(arms.guard) && Lexical(arms.value) && LexicalArms(arms.rest)
  }

  predicate NamedSignals(table: Table) { forall s | s in table :: IsName(s.text) }

  lemma {:induction false} FoundIsInTable(table: Table, name: string)
    ensures Find(table, name).At? ==> Find(table, name).sym in table
  {
    if |table| > 0 { FoundIsInTable(table[1..], name); }
  }

  lemma {:induction false} ConcatIsSpelt(a: Node, b: Node, table: Table)
    requires SpeltNode(a, table) && SpeltNode(b, table)
    ensures SpeltNode(Concat(a, b), table)
  {
    if a.N? { ConcatIsSpelt(a.next, b, table); }
  }

  lemma {:induction false} BuildIsSpelt(e: Expr, table: Table)
    requires Lexical(e) && NamedSignals(table)
    ensures SpeltNode(Build(e), table)
    decreases e
  {
    match e
    case Var(name) => { FoundIsInTable(table, name); }
    case Num(_) => {}
    case Not(x) => { BuildIsSpelt(x, table); }
    case And(l, r) => { BuildIsSpelt(l, table); BuildIsSpelt(r, table); }
    case Or(l, r) => { BuildIsSpelt(l, table); BuildIsSpelt(r, table); }
    case Comp(_, l, r) => { BuildIsSpelt(l, table); BuildIsSpelt(r, table); }
    case In(x, els) => { BuildIsSpelt(x, table); ElsAreSpelt(els, table); }
    case Case(arms) => { ArmsAreSpelt(arms, table); }
  }

  lemma {:induction false} ElsAreSpelt(els: Exprs, table: Table)
    requires LexicalEls(els) && NamedSignals(table)
    ensures SpeltNode(BuildEls(els), table)
    decreases els
  {
    hide Build;
    BuildIsSpelt(els.e, table);
    if els.More? {
      ElsAreSpelt(els.rest, table);
      ConcatIsSpelt(Build(els.e), BuildEls(els.rest), table);
    }
  }

  lemma {:induction false} ArmsAreSpelt(arms: Arms, table: Table)
    requires LexicalArms(arms) && NamedSignals(table)
    ensures SpeltNode(BuildArms(arms), table)
    decreases arms
  {
    hide Build;
    if arms.Arm? {
      BuildIsSpelt(arms.guard, table);
      BuildIsSpelt(arms.value, table);
      ArmsAreSpelt(arms.rest, table);
      ConcatIsSpelt(N(KCase, false, Build(arms.guard), Build(arms.value), Null), BuildArms(arms.rest), table);
    }
  }

  /** The printed characters are lexed as the printed tokens, however the lines were broken. */
  lemma TextIsLexed(e: Expr, table: Table, ps: seq<Piece>)
    requires Lexical(e) && NamedSignals(table) && Tokens(ps) == Gen(Build(e), table)
    ensures Lex(Layout(ps)) == Some(Gen(Build(e), table))
  {
    hide Gen, Build, Layout, Tokens, Lex;
    BuildIsSpelt(e, table);
    GenIsSound(Build(e), table);
    LayoutIsLexed(ps);
  }

  /** Whatever bits the Boolean signals are, and whatever the other signals. */
  ghost predicate SameValue(c: CExpr, e: Expr, table: Table) {
    forall sig :: Booleans(table, sig, true) ==> Value(c, sig) == Meaning(e, table, sig)
  }

  /** The tokens are one C expression with the value of e. */
  ghost predicate ReadAsMeant(ts: seq<Tok>, e: Expr, table: Table) {
    exists c :: Cond(ts) == Done(c, []) && SameValue(c, e, table)
  }

  /**
    gen_funct on an accepted expression, from the beginning of a line: a function whose text returns
    an expression.  What is printed for it is read as a C expression that always has the value of the
    HCL expression, and so is what a lexer finds in its characters, however the lines were broken.
    The generator is ready for the next function.
   */
  method GenFunct(name: string, e: Expr, isbool: bool, table: Table, g: Outgen) returns (ghost ps: seq<Piece>)
    requires Accepted(e, isbool, table) && g.Valid() && g.Fresh()
    modifies g
    ensures g.Valid() && g.Fresh()
    ensures g.out == old(g.out) + FunctionText(name, ps, g.firstIndent, g.maxColumn)
    ensures Wrapped(ps, Start(g.firstIndent, g.maxColumn), g.maxColumn) && NumeralsAreDirect(ps)
    ensures Tokens(ps) == Gen(Build(e), table) && ReadAsMeant(Tokens(ps), e, table)
    ensures Lexical(e) && NamedSignals(table) ==> Lex(Layout(ps)) == Some(Tokens(ps))
  {
    hide Shaped, Gen, Known, Readable, Checked, CheckArg, Build, ReadAsMeant, Lexical, NamedSignals, Lex, Wrap, After, Title, RETURN,
      Layout, Tokens, Counter, Wrapped, NumeralsAreDirect;
    BuildIsShaped(e, table);
    ghost var before := g.out;
    g.PrintText(Title(name));
    g.Terminate();
    g.PrintText("{");
    g.Terminate();
    g.PrintText(RETURN);
    OpeningIs(before, name, g.firstIndent, g.maxColumn);
    NothingLaidOut();
    GenExpr(Build(e), table, g);
    ps := g.pieces;
    assert Tokens(ps) == Gen(Build(e), table);
    g.PrintText(";");
    g.Terminate();
    g.PrintText("}");
    g.Terminate();
    g.Terminate();
    FunctionIs(before, name, ps, g.firstIndent, g.maxColumn);
    if Lexical(e) && NamedSignals(table) { TextIsLexed(e, table, ps); }
    TextIsMeant(e, isbool, table, Tokens(ps));
  }

  lemma OpeningIs(before: string, name: string, first: nat, m: int)
    ensures before + Wrap(0, first, Title(name), m) + "\n" + Wrap(0, first, "{", m) + "\n" + Wrap(0, first, RETURN, m) ==
            before + Opening(name, first, m)
  {
    hide Wrap, Title, RETURN;
  }

  lemma FunctionIs(before: string, name: string, ps: seq<Piece>, first: nat, m: int)
    ensures var c := Counter(ps, Start(first, m));
      before + Opening(name, first, m) + Layout(ps) + Wrap(c, first, ";", m) + "\n" + Wrap(0, first, "}", m) + "\n" + "\n" ==
      before + FunctionText(name, ps, first, m)
  {
    hide Wrap, Layout, Opening, Counter, Start;
  }

  /**
    An accepted comparison whose function has a line of 77 characters, with the column 75 that the
    generator uses.  Behind the return keyword the counter comes to 75 exactly, and two digits follow.
   */
  lemma ComparisonPassesColumn(before: string, title: string, name: string, table: Table, ps: seq<Piece>, first: nat)
    requires Find(table, name).At? && !Find(table, name).sym.isbool
    requires |Find(table, name).sym.text| == 57 && OneLine(Find(table, name).sym.text)
    requires Tokens(ps) == Gen(Build(Comp(Eq, Var(name), Num("10"))), table)
    requires Wrapped(ps, Start(first, 75), 75) && NumeralsAreDirect(ps) && OneLine(title) && Column(before) == 0
    ensures Accepted(Comp(Eq, Var(name), Num("10")), true, table)
    ensures !LinesFit(before + FunctionText(title, ps, first, 75), 75)
  {
    ComparisonIsAccepted(name, table);
    var text := Find(table, name).sym.text;
    var n := Build(Comp(Eq, Var(name), Num("10")));
    assert Gen(n.arg1, table) == [Sig(text)] && Gen(n.arg2, table) == [Lit("10")];
    assert Gen(n, table) == [LParen] + ([Sig(text)] + ([Cmp(Eq)] + ([Lit("10")] + [RParen])));
    assert Start(first, 75) == 11;
    hide Gen, Build, Layout, LinesFit, Wrapped, Tokens, NumeralsAreDirect, NumeralsFit, OneLineEach, Column;
    NumeralsDoNotFit(ps, text);
    FunctionFitsIff(before, title, ps, first, 75);
  }

  lemma ComparisonIsAccepted(name: string, table: Table)
    requires Find(table, name).At? && !Find(table, name).sym.isbool
    ensures Accepted(Comp(Eq, Var(name), Num("10")), true, table)
  {
    hide Number;
    var e := Comp(Eq, Var(name), Num("10"));
    assert Known(Var(name), table) && Known(Num("10"), table);
    assert Readable(Var(name)) && Readable(Num("10"));
    assert CheckArg(Build(Var(name)), false, table) && CheckArg(Build(Num("10")), false, table);
    assert Checked(e, table);
    assert CheckArg(Build(e), true, table);
    assert Known(e, table);
    assert Readable(e);
  }

  /** A piece that fits behind the pieces in front, as far as these are counted. */
  lemma Unbroken(front: seq<Piece>, p: Piece, c: nat, n: nat, m: int)
    requires Wrapped(front + [p], c, m) && !p.direct && Counter(front, c) == n && n + |Spell(p.tok)| <= m
    ensures Counter(front + [p], c) == n + |Spell(p.tok)| && (Uncounted(front, 0) == 0 ==> Uncounted(front + [p], 0) == 0)
  {
    WrappedMore(front, p, c, m);
    hide Wrapped, Counter, Uncounted, Spell;
  }

  lemma DirectPiece(front: seq<Piece>, p: Piece, c: nat, n: nat, m: int)
    requires Wrapped(front + [p], c, m) && p.direct && Counter(front, c) == n && Uncounted(front, 0) == 0
    ensures Counter(front + [p], c) == n && Uncounted(front + [p], 0) == |Spell(p.tok)|
  {
    WrappedMore(front, p, c, m);
    hide Wrapped, Counter, Uncounted, Spell;
  }

  lemma FirstPieces(ps: seq<Piece>)
    requires |ps| == 5
    ensures ps[..0] == [] && ps[..1] == [] + [ps[0]] && ps[..2] == ps[..1] + [ps[1]]
    ensures ps[..3] == ps[..2] + [ps[2]] && ps[..4] == ps[..3] + [ps[3]]
  {
  }

  lemma NumeralsDoNotFit(ps: seq<Piece>, text: string)
    requires Wrapped(ps, 11, 75) && NumeralsAreDirect(ps) && |text| == 57 && OneLine(text)
    requires Tokens(ps) == [LParen, Sig(text), Cmp(Eq), Lit("10"), RParen]
    ensures OneLineEach(ps) && !NumeralsFit(ps, 11, 75)
  {
    hide *;
    SpellingOf(ps, text);
    AllOneLine(ps, text);
    FirstPieces(ps);
    FrontIsWrapped(ps, 11, 75, 1);
    FrontIsWrapped(ps, 11, 75, 2);
    FrontIsWrapped(ps, 11, 75, 3);
    FrontIsWrapped(ps, 11, 75, 4);
    Nothing(11, 75);
    Unbroken([], ps[0], 11, 11, 75);
    Unbroken(ps[..1], ps[1], 11, 12, 75);
    Unbroken(ps[..2], ps[2], 11, 71, 75);
    DirectPiece(ps[..3], ps[3], 11, 75, 75);
    DoesNotFit(ps, 4, 11, 75);
  }

  lemma DoesNotFit(ps: seq<Piece>, i: nat, c: nat, m: int)
    requires 0 < i <= |ps| && Uncounted(ps[..i], 0) > 0 && Counter(ps[..i], c) + Uncounted(ps[..i], 0) > m
    ensures !NumeralsFit(ps, c, m)
  {
    hide Counter, Uncounted;
  }

  /** The five pieces, how long they are, and that only the numeral is direct. */
  lemma SpellingOf(ps: seq<Piece>, text: string)
    requires NumeralsAreDirect(ps) && |text| == 57 && Tokens(ps) == [LParen, Sig(text), Cmp(Eq), Lit("10"), RParen]
    ensures |ps| == 5
    ensures ps[0].tok == LParen && ps[1].tok == Sig(text) && ps[2].tok == Cmp(Eq) && ps[3].tok == Lit("10") && ps[4].tok == RParen
    ensures !ps[0].direct && !ps[1].direct && !ps[2].direct && ps[3].direct
    ensures |Spell(ps[0].tok)| == 1 && |Spell(ps[1].tok)| == 59 && |Spell(ps[2].tok)| == 4 && |Spell(ps[3].tok)| == 2
  {
    TokensAre(ps);
    hide Tokens;
    forall i | 0 <= i < 5 ensures ps[i] in ps {}
    hide Tokens, Spell;
    SpellLengths(text);
  }

  lemma SpellLengths(text: string)
    ensures |Spell(LParen)| == 1 && |Spell(Sig(text))| == |text| + 2 && |Spell(Cmp(Eq))| == 4 && |Spell(Lit("10"))| == 2
    ensures Lit("10").text != "0"
  {
  }

  lemma {:induction false} TokensAre(ps: seq<Piece>)
    ensures forall i | 0 <= i < |ps| :: Tokens(ps)[i] == ps[i].tok
  {
    if ps != [] { TokensAre(ps[..|ps| - 1]); }
  }

  lemma SpellIsOneLine(t: Tok)
    requires t.Sig? ==> OneLine(t.text)
    requires t.Lit? ==> OneLine(t.text)
    ensures OneLine(Spell(t))
  {
  }

  lemma AllOneLine(ps: seq<Piece>, text: string)
    requires |ps| == 5 && OneLine(text)
    requires ps[0].tok == LParen && ps[1].tok == Sig(text) && ps[2].tok == Cmp(Eq) && ps[3].tok == Lit("10") && ps[4].tok == RParen
    ensures OneLineEach(ps)
  {
    assert OneLine("10");
    hide OneLine, Spell;
    SpellIsOneLine(LParen);
    SpellIsOneLine(Sig(text));
    SpellIsOneLine(Cmp(Eq));
    SpellIsOneLine(Lit("10"));
    SpellIsOneLine(RParen);
  }

  lemma TextIsMeant(e: Expr, isbool: bool, table: Table, ts: seq<Tok>)
    requires Accepted(e, isbool, table) && ts == Gen(Build(e), table)
    ensures ReadAsMeant(ts, e, table)
  {
    hide Gen, Known, Readable, Checked, CheckArg, Build, Value, Meaning, ToC, Booleans, Cond;
    TextIsOneExpression(e, table);
    forall sig | Booleans(table, sig, true) ensures Value(ToC(e, table), sig) == Meaning(e, table, sig) {
      Preserves(e, table, sig, true, isbool);
    }
    assert SameValue(ToC(e, table), e, table);
  }
}

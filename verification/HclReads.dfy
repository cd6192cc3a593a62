/**
  How C reads the text that is printed for a parse tree: every tree's text is one expression or no
  expression at all, and the condition under which it is the expression that is meant.
 */
module HclReads {
  import opened CText
  import opened HclGen
  import opened Options

  /** The expression that the text of a node spells, if it spells one. */
  function Read(n: Node, table: Table): Option<CExpr>
    decreases Weight(n), 1
  {
    if n.Null? then None
    else
      match n.kind
      case KVar(name) => (match Find(table, name) case Missing => None case At(sym) => Some(CSig(sym.text)))
      case KNum(text) => Some(CLit(text))
      case KNot => (match Read(n.arg1, table) case None => None case Some(c) => Some(CNot(c)))
      case KAnd => Both(Read(n.arg1, table), Amp, Read(n.arg2, table))
      case KOr => Both(Read(n.arg1, table), Bar, Read(n.arg2, table))
      case KComp(op) => Both(Read(n.arg1, table), Cmp(op), Read(n.arg2, table))
      case KEle =>
        if n.arg2.Null? then None
        else ReadRest(Both(Read(n.arg1, table), Cmp(Eq), Read(n.arg2, table)), n.arg1, n.arg2.next, table)
      case KCase => ReadArms(n, table)
  }

  function ReadRest(acc: Option<CExpr>, x: Node, ele: Node, table: Table): Option<CExpr>
    decreases Weight(x) + Weight(ele), 2
  {
    if ele.Null? then acc
    else ReadRest(Both(acc, BarBar, Both(Read(x, table), Cmp(Eq), Read(ele, table))), x, ele.next, table)
  }

  function ReadArms(ele: Node, table: Table): Option<CExpr>
    decreases Weight(ele), 0
  {
    if ele.Null? then Some(CLit("0"))
    else if IsDefault(ele.arg1) then Read(ele.arg2, table)
    else Three(Read(ele.arg1, table), Read(ele.arg2, table), ReadArms(ele.next, table))
  }

  /** Names are known and operands are there; only arms may lack them. */
  predicate Firm(n: Node, table: Table) {
    n.N? ==>
      && (n.kind.KVar? ==> Find(table, n.kind.name).At?)
      && (n.kind.KNot? || n.kind.KAnd? || n.kind.KOr? || n.kind.KComp? || n.kind.KEle? ==> n.arg1.N?)
      && (n.kind.KAnd? || n.kind.KOr? || n.kind.KComp? || n.kind.KEle? ==> n.arg2.N?)
      && Firm(n.arg1, table) && Firm(n.arg2, table) && Firm(n.next, table)
  }

  // ---------- The parser finds that reading ----------

  lemma {:induction false} NodeReads(n: Node, table: Table, rest: seq<Tok>)
    requires n.N? && Firm(n, table)
    ensures Unary(Gen(n, table) + rest) == Want(Read(n, table), rest)
    decreases Weight(n), 1
  {
    hide Unary, Cond, GenEls, GenArms, ReadRest, ReadArms;
    match n.kind
    case KVar(name) => { SigReads(Find(table, name).sym.text, rest); }
    case KNum(text) => { LitReads(text, rest); }
    case KNot => {
      NodeReads(n.arg1, table, rest);
      NotReads(Gen(n.arg1, table) + rest, Read(n.arg1, table), rest);
      assert [Bang] + Gen(n.arg1, table) + rest == [Bang] + (Gen(n.arg1, table) + rest);
    }
    case KAnd => { PairIsRead(n.arg1, Amp, n.arg2, table, rest); }
    case KOr => { PairIsRead(n.arg1, Bar, n.arg2, table, rest); }
    case KComp(op) => { PairIsRead(n.arg1, Cmp(op), n.arg2, table, rest); }
    case KEle => {
      SetIsRead(n.arg1, n.arg2, table, rest);
      Enclosed(GenEls(n.arg1, n.arg2, table), Read(n, table), rest);
    }
    case KCase => {
      ArmsAreRead(n, table, [RParen] + rest);
      Enclosed(GenArms(n, table), Read(n, table), rest);
    }
  }

  lemma Enclosed(s: seq<Tok>, r: Option<CExpr>, rest: seq<Tok>)
    requires Cond(s + ([RParen] + rest)) == Want(r, [RParen] + rest)
    ensures Unary([LParen] + (s + [RParen]) + rest) == Want(r, rest)
  {
    hide Cond, Unary;
    assert [LParen] + (s + [RParen]) + rest == [LParen] + (s + ([RParen] + rest));
    ParenReads(s + ([RParen] + rest), r, rest);
  }

  /** Two operands in parentheses. */
  lemma PairIsRead(l: Node, op: Tok, r: Node, table: Table, rest: seq<Tok>)
    requires l.N? && r.N? && Firm(l, table) && Firm(r, table) && Prec(op) < UNARY
    ensures Unary([LParen] + (Gen(l, table) + ([op] + (Gen(r, table) + [RParen]))) + rest)
         == Want(Both(Read(l, table), op, Read(r, table)), rest)
    decreases Weight(l) + Weight(r), 2
  {
    hide Firm, Gen, Read, Unary, Binary, Tail, Cond;
    var a, b, end := Gen(l, table), Gen(r, table), [RParen] + rest;
    var c := Both(Read(l, table), op, Read(r, table));
    NodeReads(l, table, [op] + (b + end));
    NodeReads(r, table, end);
    PairReads(0, op, a, b + end, Read(l, table), Read(r, table), end);
    CondIsBinary(a + ([op] + (b + end)), c, end);
    assert (a + ([op] + (b + [RParen]))) == (a + ([op] + b)) + [RParen];
    assert (a + ([op] + b)) + end == a + ([op] + (b + end));
    Enclosed(a + ([op] + b), c, rest);
  }

  /** What is printed behind an element of a set. */
  function MoreEls(x: Node, ele: Node, table: Table): seq<Tok> {
    if ele.Null? then [] else [BarBar] + GenEls(x, ele, table)
  }

  lemma SetPrints(x: Node, ele: Node, table: Table)
    requires ele.N?
    ensures GenEls(x, ele, table) == Gen(x, table) + ([Cmp(Eq)] + (Gen(ele, table) + MoreEls(x, ele.next, table)))
    ensures Weight(x) >= 0 && Weight(ele) > 0
  {
  }

  lemma NextIsFirm(ele: Node, table: Table)
    requires ele.N? && Firm(ele, table)
    ensures Firm(ele.next, table) && Weight(ele.next) < Weight(ele)
  {
  }

  /** One comparison, up to the || or the parenthesis that ends it. */
  lemma ElementIsRead(x: Node, ele: Node, table: Table, rest: seq<Tok>)
    requires x.N? && ele.N? && Firm(x, table) && Firm(ele, table)
    ensures Binary(1, GenEls(x, ele, table) + ([RParen] + rest))
         == Want(Both(Read(x, table), Cmp(Eq), Read(ele, table)), MoreEls(x, ele.next, table) + ([RParen] + rest))
    decreases Weight(x) + Weight(ele), 2
  {
    hide Firm, Weight, Gen, GenEls, Read, Unary, Binary, Tail, Cond;
    SetPrints(x, ele, table);
    var a, b, more, end := Gen(x, table), Gen(ele, table), MoreEls(x, ele.next, table), [RParen] + rest;
    NodeReads(x, table, [Cmp(Eq)] + (b + (more + end)));
    NodeReads(ele, table, more + end);
    PairReads(1, Cmp(Eq), a, b + (more + end), Read(x, table), Read(ele, table), more + end);
    assert a + ([Cmp(Eq)] + (b + more)) + end == a + ([Cmp(Eq)] + (b + (more + end)));
  }

  lemma {:induction false} RestIsRead(acc: CExpr, x: Node, ele: Node, table: Table, rest: seq<Tok>)
    requires x.N? && Firm(x, table) && Firm(ele, table)
    ensures Tail(0, acc, MoreEls(x, ele, table) + ([RParen] + rest))
         == Want(ReadRest(Some(acc), x, ele, table), [RParen] + rest)
    decreases Weight(x) + Weight(ele), 3
  {
    hide Gen, GenEls, Read, Unary, Binary, Tail, Cond;
    var end := [RParen] + rest;
    if ele.Null? {
      assert MoreEls(x, ele, table) + end == end;
      TailEnds(0, acc, end);
    } else {
      var item := Both(Read(x, table), Cmp(Eq), Read(ele, table));
      var more := MoreEls(x, ele.next, table);
      ElementIsRead(x, ele, table, rest);
      TailGoesOn(0, acc, BarBar, GenEls(x, ele, table) + end, item, more + end);
      assert MoreEls(x, ele, table) + end == [BarBar] + (GenEls(x, ele, table) + end);
      if item.Some? {
        RestIsRead(CBin(BarBar, acc, item.value), x, ele.next, table, rest);
      } else {
        NothingIsRead(x, ele.next, table);
      }
    }
  }

  lemma {:induction false} NothingIsRead(x: Node, ele: Node, table: Table)
    ensures ReadRest(None, x, ele, table) == None
    decreases ele
  {
    hide Read;
    if ele.N? { NothingIsRead(x, ele.next, table); }
  }

  /** A set: one comparison for each node of the chain, joined by ||. */
  lemma SetIsRead(x: Node, ele: Node, table: Table, rest: seq<Tok>)
    requires x.N? && ele.N? && Firm(x, table) && Firm(ele, table)
    ensures Cond(GenEls(x, ele, table) + ([RParen] + rest))
         == Want(ReadRest(Both(Read(x, table), Cmp(Eq), Read(ele, table)), x, ele.next, table), [RParen] + rest)
    decreases Weight(x) + Weight(ele), 4
  {
    hide Firm, Weight, MoreEls, Gen, GenEls, Read, ReadRest, Unary, Binary, Tail, Cond;
    var first, more, end := Both(Read(x, table), Cmp(Eq), Read(ele, table)), MoreEls(x, ele.next, table), [RParen] + rest;
    ElementIsRead(x, ele, table, rest);
    NextIsFirm(ele, table);
    FirstOperand(0, GenEls(x, ele, table) + end, first, more + end);
    if first.Some? {
      RestIsRead(first.value, x, ele.next, table, rest);
    } else {
      NothingIsRead(x, ele.next, table);
    }
    CondIsBinary(GenEls(x, ele, table) + end, ReadRest(first, x, ele.next, table), end);
  }

  /** An operand in an arm, or the lack of one. */
  lemma ArmOperand(n: Node, table: Table, rest: seq<Tok>)
    requires Firm(n, table) && |rest| > 0 && (rest[0] == Quest || rest[0] == Colon || rest[0] == RParen)
    ensures Unary(Gen(n, table) + rest) == Want(Read(n, table), rest)
    decreases Weight(n), 2
  {
    hide Unary;
    if n.Null? {
      assert Gen(n, table) + rest == rest;
      NoOperand(rest);
    } else {
      NodeReads(n, table, rest);
    }
  }

  /** A case: conditional expressions nested to the right. */
  lemma {:induction false} ArmsAreRead(ele: Node, table: Table, rest: seq<Tok>)
    requires Firm(ele, table) && |rest| > 0 && rest[0] == RParen
    ensures Cond(GenArms(ele, table) + rest) == Want(ReadArms(ele, table), rest)
    decreases Weight(ele), 0
  {
    hide Gen, Read, IsDefault, Unary, Binary, Tail, Cond;
    if ele.Null? {
      LitReads("0", rest);
      OperandReads([Lit("0")] + rest, Some(CLit("0")), rest);
    } else {
      var g, v := Gen(ele.arg1, table), Gen(ele.arg2, table);
      if IsDefault(ele.arg1) {
        ArmOperand(ele.arg2, table, rest);
        OperandReads(v + rest, Read(ele.arg2, table), rest);
      } else {
        var others := GenArms(ele.next, table) + rest;
        var then_ := v + ([Colon] + others);
        ArmsAreRead(ele.next, table, rest);
        ArmOperand(ele.arg2, table, [Colon] + others);
        OperandReads(then_, Read(ele.arg2, table), [Colon] + others);
        ArmOperand(ele.arg1, table, [Quest] + then_);
        CondReads(g + ([Quest] + then_), Read(ele.arg1, table), then_, Read(ele.arg2, table), others, ReadArms(ele.next, table), rest);
        assert g + ([Quest] + (v + ([Colon] + GenArms(ele.next, table)))) + rest == g + ([Quest] + then_);
      }
    }
  }

  // ---------- The tree that the grammar builds ----------

  lemma {:induction false} ConcatIsFirm(a: Node, b: Node, table: Table)
    requires Firm(a, table) && Firm(b, table)
    ensures Firm(Concat(a, b), table) && (a.N? || b.N? ==> Concat(a, b).N?)
  {
    if a.N? { ConcatIsFirm(a.next, b, table); }
  }

  lemma {:induction false} ConcatNull(a: Node)
    ensures Concat(a, Null) == a
  {
    if a.N? { ConcatNull(a.next); }
  }

  lemma {:induction false} BuildIsFirm(e: Expr, table: Table)
    requires Known(e, table)
    ensures Build(e).N? && Firm(Build(e), table)
    decreases e
  {
    match e
    case Var(_) => {}
    case Num(_) => {}
    case Not(x) => { BuildIsFirm(x, table); }
    case And(l, r) => { BuildIsFirm(l, table); BuildIsFirm(r, table); }
    case Or(l, r) => { BuildIsFirm(l, table); BuildIsFirm(r, table); }
    case Comp(_, l, r) => { BuildIsFirm(l, table); BuildIsFirm(r, table); }
    case In(x, els) => { BuildIsFirm(x, table); ElsAreFirm(els, table); }
    case Case(arms) => { ArmsAreFirm(arms, table); }
  }

  lemma {:induction false} ElsAreFirm(els: Exprs, table: Table)
    requires KnownEls(els, table)
    ensures BuildEls(els).N? && Firm(BuildEls(els), table)
    decreases els
  {
    hide Build;
    BuildIsFirm(els.e, table);
    if els.More? {
      ElsAreFirm(els.rest, table);
      ConcatIsFirm(Build(els.e), BuildEls(els.rest), table);
    }
  }

  lemma {:induction false} ArmsAreFirm(arms: Arms, table: Table)
    requires KnownArms(arms, table)
    ensures Firm(BuildArms(arms), table) && (arms.Arm? ==> BuildArms(arms).N?)
    decreases arms
  {
    hide Build;
    if arms.Arm? {
      BuildIsFirm(arms.guard, table);
      BuildIsFirm(arms.value, table);
      ArmsAreFirm(arms.rest, table);
      ConcatIsFirm(N(KCase, false, Build(arms.guard), Build(arms.value), Null), BuildArms(arms.rest), table);
    }
  }

  lemma Single(e: Expr, m: Node)
    requires !e.Case?
    ensures Build(e).N? && !Build(e).kind.KCase? && Concat(Build(e), m) == Build(e).(next := m)
  {
  }

  lemma NextIsNotRead(n: Node, m: Node, table: Table)
    requires n.N? && !n.kind.KCase?
    ensures Read(n.(next := m), table) == Read(n, table)
  {
  }

  lemma ArmChain(arms: Arms, m: Node)
    requires arms.Arm?
    ensures Concat(BuildArms(arms), m)
         == N(KCase, false, Build(arms.guard), Build(arms.value), Concat(BuildArms(arms.rest), m))
  {
    hide Build;
    assert Concat(Null, BuildArms(arms.rest)) == BuildArms(arms.rest);
    assert BuildArms(arms) == N(KCase, false, Build(arms.guard), Build(arms.value), BuildArms(arms.rest));
  }

  lemma DefaultGuard(g: Expr)
    ensures IsDefault(Build(g)) <==> IsOne(g)
  {
  }

  // ---------- What is read for a value of 0 ----------

  lemma {:induction false} ZeroIsRead(e: Expr, table: Table, m: Node)
    requires Known(e, table)
    ensures Read(Concat(Build(e), m), table) == Some(CLit("0")) <==> IsZero(e)
    decreases e
  {
    if e.Case? {
      hide Build, Read;
      ArmChain(e.arms, m);
      assert Build(e) == BuildArms(e.arms) by { BuildOfCase(e.arms); }
      var n := Concat(Build(e), m);
      CaseIsRead(n, table);
      DefaultGuard(e.arms.guard);
      if IsOne(e.arms.guard) {
        ZeroIsRead(e.arms.value, table, Null);
        ConcatNull(Build(e.arms.value));
      }
    } else {
      Single(e, m);
      NextIsNotRead(Build(e), m, table);
      NotZero(e, table);
    }
  }

  lemma BuildOfCase(arms: Arms)
    ensures Build(Case(arms)) == BuildArms(arms)
  {
  }

  lemma CaseIsRead(n: Node, table: Table)
    requires n.N? && n.kind.KCase?
    ensures Read(n, table) == ReadArms(n, table)
  {
  }

  lemma NotZero(e: Expr, table: Table)
    requires Known(e, table) && !e.Case?
    ensures Read(Build(e), table) == Some(CLit("0")) <==> IsZero(e)
  {
    match e
    case In(x, els) => {
      hide Read, BuildEls, Build;
      var n := N(KEle, true, Build(x), BuildEls(els), Null);
      assert Build(e) == n by { BuildOfSet(x, els); }
      NoSetIsZero(n, table);
    }
    case _ => {}
  }

  lemma BuildOfSet(x: Expr, els: Exprs)
    ensures Build(In(x, els)) == N(KEle, true, Build(x), BuildEls(els), Null)
  {
  }

  lemma NoSetIsZero(n: Node, table: Table)
    requires n.N? && n.kind.KEle?
    ensures Read(n, table) != Some(CLit("0"))
  {
    if n.arg2.N? {
      RestIsBinary(Both(Read(n.arg1, table), Cmp(Eq), Read(n.arg2, table)), n.arg1, n.arg2.next, table);
    }
  }

  lemma {:induction false} RestIsBinary(acc: Option<CExpr>, x: Node, ele: Node, table: Table)
    requires acc.Some? ==> acc.value.CBin?
    ensures var r := ReadRest(acc, x, ele, table); r.Some? ==> r.value.CBin?
    decreases ele
  {
    hide Read;
    if ele.N? { RestIsBinary(Both(acc, BarBar, Both(Read(x, table), Cmp(Eq), Read(ele, table))), x, ele.next, table); }
  }

  /** What a case reads as its last alternative, when the chain goes on behind its last arm. */
  lemma NextEnds(els: Exprs, table: Table)
    requires KnownEls(els, table)
    ensures ReadArms(BuildEls(els), table) == Some(CLit("0")) <==> EndsCase(els.e)
  {
    var e := els.e;
    var m := if els.One? then Null else BuildEls(els.rest);
    ConcatNull(Build(e));
    assert BuildEls(els) == Concat(Build(e), m);
    HeadEnds(e, table, m);
  }

  lemma HeadEnds(e: Expr, table: Table, m: Node)
    requires Known(e, table)
    ensures ReadArms(Concat(Build(e), m), table) == Some(CLit("0")) <==> EndsCase(e)
  {
    hide Read;
    if e.Case? {
      ZeroIsRead(e, table, m);
      ArmChain(e.arms, m);
      BuildOfCase(e.arms);
      CaseIsRead(Concat(Build(e), m), table);
    } else {
      Single(e, m);
      match e
      case And(l, r) => { PairEnds(l, r, table); }
      case Or(l, r) => { PairEnds(l, r, table); }
      case Comp(_, l, r) => { PairEnds(l, r, table); }
      case In(x, els) => {
        DefaultGuard(x);
        ConcatNull(Build(els.e));
        ZeroIsRead(els.e, table, if els.One? then Null else BuildEls(els.rest));
      }
      case Not(x) => { NullIsNotRead(table); }
      case _ => { NullIsNotRead(table); }
    }
  }

  lemma PairEnds(l: Expr, r: Expr, table: Table)
    requires Known(r, table)
    ensures IsDefault(Build(l)) <==> IsOne(l)
    ensures Read(Build(r), table) == Some(CLit("0")) <==> IsZero(r)
  {
    DefaultGuard(l);
    ConcatNull(Build(r));
    ZeroIsRead(r, table, Null);
  }

  lemma NullIsNotRead(table: Table)
    ensures Read(Null, table) == None
  {
  }

  // ---------- The reading is the expression that is meant ----------

  function Len(n: Node): nat { if n.Null? then 0 else 1 + Len(n.next) }

  function Count(els: Exprs): nat { if els.One? then 1 else 1 + Count(els.rest) }

  /** How many || are nested to the left. */
  function Ors(c: CExpr): nat {
    if c.CBin? && c.op == BarBar then 1 + Ors(c.l) else 0
  }

  lemma {:induction false} LenOfConcat(a: Node, b: Node)
    ensures Len(Concat(a, b)) == Len(a) + Len(b)
  {
    if a.N? { LenOfConcat(a.next, b); }
  }

  lemma {:induction false} LenOfArms(arms: Arms)
    ensures Len(BuildArms(arms)) >= 1 <==> arms.Arm?
    ensures Len(BuildArms(arms)) == 1 <==> OneArm(arms)
  {
    hide Build;
    if arms.Arm? {
      LenOfArms(arms.rest);
      LenOfConcat(N(KCase, false, Build(arms.guard), Build(arms.value), Null), BuildArms(arms.rest));
    }
  }

  lemma LenOfOne(e: Expr, table: Table)
    requires Known(e, table)
    ensures Len(Build(e)) >= 1 && (Len(Build(e)) == 1 <==> (e.Case? ==> OneArm(e.arms)))
  {
    if e.Case? {
      BuildOfCase(e.arms);
      LenOfArms(e.arms);
    } else {
      Single(e, Null);
      ConcatNull(Build(e));
    }
  }

  /** Every case among the elements has one arm. */
  predicate OneArmEach(els: Exprs) {
    (els.e.Case? ==> OneArm(els.e.arms)) && (els.More? ==> OneArmEach(els.rest))
  }

  lemma {:induction false} LenOfEls(els: Exprs, table: Table)
    requires KnownEls(els, table)
    ensures Len(BuildEls(els)) >= Count(els) && (Len(BuildEls(els)) == Count(els) <==> OneArmEach(els))
    decreases els
  {
    hide Build;
    LenOfOne(els.e, table);
    if els.More? {
      LenOfEls(els.rest, table);
      LenOfConcat(Build(els.e), BuildEls(els.rest));
    }
  }

  lemma {:induction false} OrsOfRest(acc: CExpr, x: Node, ele: Node, table: Table)
    ensures var r := ReadRest(Some(acc), x, ele, table); r.Some? ==> Ors(r.value) == Ors(acc) + Len(ele)
    decreases ele
  {
    hide Read;
    if ele.N? {
      var item := Both(Read(x, table), Cmp(Eq), Read(ele, table));
      if item.Some? {
        OrsOfRest(CBin(BarBar, acc, item.value), x, ele.next, table);
      } else {
        NothingIsRead(x, ele.next, table);
      }
    }
  }

  lemma {:induction false} OrsOfAny(acc: CExpr, x: CExpr, els: Exprs, table: Table)
    ensures Ors(AnyOf(acc, x, els, table)) == Ors(acc) + Count(els)
    decreases els
  {
    hide ToC;
    if els.More? { OrsOfAny(CBin(BarBar, acc, CBin(Cmp(Eq), x, ToC(els.e, table))), x, els.rest, table); }
  }

  /** Is the first node of the chain of els read as its first element? */
  predicate HeadIsRead(els: Exprs) {
    Readable(els.e) && (els.e.Case? ==> OneArm(els.e.arms) && (els.One? || IsOne(els.e.arms.guard) || EndsCase(els.rest.e)))
  }

  lemma ElsHead(els: Exprs, table: Table)
    requires KnownEls(els, table) && (els.e.Case? ==> OneArm(els.e.arms))
    ensures BuildEls(els).N? && BuildEls(els).next == if els.One? then Null else BuildEls(els.rest)
  {
    var m := if els.One? then Null else BuildEls(els.rest);
    hide Build;
    ConcatNull(Build(els.e));
    if els.e.Case? {
      BuildOfCase(els.e.arms);
      ArmChain(els.e.arms, m);
    } else {
      Single(els.e, m);
    }
  }

  lemma {:induction false} ReadIff(e: Expr, table: Table)
    requires Known(e, table)
    ensures Read(Build(e), table) == Some(ToC(e, table)) <==> Readable(e)
    decreases e, 0
  {
    hide ReadRest, ReadArms, AnyOf, FirstOf;
    match e
    case Var(_) => {}
    case Num(_) => {}
    case Not(x) => { ReadIff(x, table); }
    case And(l, r) => { ReadIff(l, table); ReadIff(r, table); }
    case Or(l, r) => { ReadIff(l, table); ReadIff(r, table); }
    case Comp(_, l, r) => { ReadIff(l, table); ReadIff(r, table); }
    case In(x, els) => {
      ReadIff(x, table);
      SetIff(x, els, table);
    }
    case Case(arms) => {
      hide Read, Build, ToC;
      BuildOfCase(arms);
      ArmChain(arms, Null);
      ConcatNull(BuildArms(arms));
      ConcatNull(BuildArms(arms.rest));
      CaseIsRead(Build(e), table);
      ArmsIff(arms, table);
      CaseMeans(arms, table);
    }
  }

  lemma CaseMeans(arms: Arms, table: Table)
    ensures ToC(Case(arms), table) == FirstOf(arms, table)
  {
  }

  lemma {:induction false} ArmsIff(arms: Arms, table: Table)
    requires KnownArms(arms, table)
    ensures ReadArms(BuildArms(arms), table) == Some(FirstOf(arms, table)) <==> ReadableArms(arms)
    decreases arms
  {
    hide Read, Build, ToC, Readable;
    if arms.Arm? {
      ArmChain(arms, Null);
      ConcatNull(BuildArms(arms));
      ConcatNull(BuildArms(arms.rest));
      DefaultGuard(arms.guard);
      ReadIff(arms.guard, table);
      ReadIff(arms.value, table);
      ArmsIff(arms.rest, table);
    }
  }

  lemma KnownArm(els: Exprs, table: Table)
    requires KnownEls(els, table) && els.e.Case?
    ensures var a := els.e.arms; a.Arm? && Known(a.guard, table) && Known(a.value, table)
  {
    assert Known(els.e, table);
    assert KnownArms(els.e.arms, table);
  }

  /** The first node of a set's chain, when its element has at most one arm. */
  lemma {:induction false} HeadIff(els: Exprs, table: Table)
    requires KnownEls(els, table) && (els.e.Case? ==> OneArm(els.e.arms))
    ensures Read(BuildEls(els), table) == Some(ToC(els.e, table)) <==> HeadIsRead(els)
    decreases els.e, 1
  {
    var e, m := els.e, if els.One? then Null else BuildEls(els.rest);
    hide Read, Build, ToC, Readable, ReadArms;
    ConcatNull(Build(e));
    assert BuildEls(els) == Concat(Build(e), m);
    if e.Case? {
      KnownArm(els, table);
      OneArmIff(e.arms, m, table);
      if els.More? { NextEnds(els.rest, table); } else { NullEnds(table); }
      ReadIff(e.arms.guard, table);
      ReadIff(e.arms.value, table);
      CaseMeans(e.arms, table);
      OneArmMeans(e.arms, table);
    } else {
      Single(e, m);
      NextIsNotRead(Build(e), m, table);
      ReadIff(e, table);
    }
  }

  lemma NullEnds(table: Table)
    ensures ReadArms(Null, table) == Some(CLit("0"))
  {
  }

  lemma OneArmIff(arms: Arms, m: Node, table: Table)
    requires OneArm(arms)
    ensures Read(Concat(Build(Case(arms)), m), table) ==
      if IsOne(arms.guard) then Read(Build(arms.value), table)
      else Three(Read(Build(arms.guard), table), Read(Build(arms.value), table), ReadArms(m, table))
  {
    hide Read, Build;
    BuildOfCase(arms);
    ArmChain(arms, m);
    DefaultGuard(arms.guard);
    CaseIsRead(Concat(BuildArms(arms), m), table);
  }

  lemma OneArmMeans(arms: Arms, table: Table)
    requires OneArm(arms)
    ensures FirstOf(arms, table) ==
      if IsOne(arms.guard) then ToC(arms.value, table) else CCond(ToC(arms.guard, table), ToC(arms.value, table), CLit("0"))
    ensures Readable(Case(arms)) <==> Readable(arms.value) && (IsOne(arms.guard) || Readable(arms.guard))
  {
    hide ToC;
    assert ReadableArms(NoArms);
  }

  /** With one node for each element, the readings agree exactly if they agree element by element. */
  lemma {:induction false} RestIff(a: CExpr, b: CExpr, x: Expr, els: Exprs, table: Table)
    requires KnownEls(els, table) && OneArmEach(els) && Read(Build(x), table) == Some(ToC(x, table))
    ensures ReadRest(Some(a), Build(x), BuildEls(els), table) == Some(AnyOf(b, ToC(x, table), els, table))
       <==> a == b && ReadableEls(els)
    decreases els
  {
    hide Read, Build, BuildEls, ToC, Readable;
    ElsHead(els, table);
    HeadIff(els, table);
    var item := Both(Read(Build(x), table), Cmp(Eq), Read(BuildEls(els), table));
    var meant := CBin(Cmp(Eq), ToC(x, table), ToC(els.e, table));
    if item.None? {
      NothingIsRead(Build(x), BuildEls(els).next, table);
    } else if els.More? {
      RestIff(CBin(BarBar, a, item.value), CBin(BarBar, b, meant), x, els.rest, table);
    }
  }

  lemma MeantBySet(x: Expr, els: Exprs, table: Table)
    ensures var first := CBin(Cmp(Eq), ToC(x, table), ToC(els.e, table));
      ToC(In(x, els), table) == if els.One? then first else AnyOf(first, ToC(x, table), els.rest, table)
  {
  }

  lemma SetOfNode(x: Node, ele: Node, table: Table)
    requires ele.N?
    ensures Read(N(KEle, true, x, ele, Null), table)
         == ReadRest(Both(Read(x, table), Cmp(Eq), Read(ele, table)), x, ele.next, table)
  {
  }

  lemma {:induction false} SameStart(a: CExpr, b: CExpr, x: Node, ele: Node, c: CExpr, els: Exprs, table: Table)
    requires Len(ele) == Count(els) && ReadRest(Some(a), x, ele, table) == Some(AnyOf(b, c, els, table))
    ensures a == b
    decreases els
  {
    hide Read, ToC;
    var item := Both(Read(x, table), Cmp(Eq), Read(ele, table));
    var meant := CBin(Cmp(Eq), c, ToC(els.e, table));
    if item.None? {
      NothingIsRead(x, ele.next, table);
    } else if els.More? {
      SameStart(CBin(BarBar, a, item.value), CBin(BarBar, b, meant), x, ele.next, c, els.rest, table);
    }
  }

  lemma {:induction false} ReadableIsOneArmEach(els: Exprs)
    requires ReadableEls(els)
    ensures OneArmEach(els)
    decreases els
  {
    hide Readable;
    if els.More? { ReadableIsOneArmEach(els.rest); }
  }

  /** Too many nodes: a case with several arms adds comparisons. */
  lemma SetTooLong(x: Expr, els: Exprs, table: Table)
    requires KnownEls(els, table) && !OneArmEach(els)
    ensures Read(N(KEle, true, Build(x), BuildEls(els), Null), table) != Some(ToC(In(x, els), table))
  {
    hide Read, Build, ToC, ReadRest, AnyOf, BuildEls;
    LenOfEls(els, table);
    SetOfNode(Build(x), BuildEls(els), table);
    MeantBySet(x, els, table);
    var item := Both(Read(Build(x), table), Cmp(Eq), Read(BuildEls(els), table));
    var meant := CBin(Cmp(Eq), ToC(x, table), ToC(els.e, table));
    if els.More? { OrsOfAny(meant, ToC(x, table), els.rest, table); }
    if item.None? {
      NothingIsRead(Build(x), BuildEls(els).next, table);
    } else {
      OrsOfRest(item.value, Build(x), BuildEls(els).next, table);
    }
  }

  lemma SetIff(x: Expr, els: Exprs, table: Table)
    requires KnownEls(els, table) && (Read(Build(x), table) == Some(ToC(x, table)) <==> Readable(x))
    ensures Read(N(KEle, true, Build(x), BuildEls(els), Null), table) == Some(ToC(In(x, els), table))
       <==> Readable(x) && ReadableEls(els)
    decreases els
  {
    hide Read, Build, ToC, Readable, ReadRest, AnyOf, BuildEls;
    if ReadableEls(els) { ReadableIsOneArmEach(els); }
    if !OneArmEach(els) {
      SetTooLong(x, els, table);
    } else {
      LenOfEls(els, table);
      ElsHead(els, table);
      HeadIff(els, table);
      SetOfNode(Build(x), BuildEls(els), table);
      MeantBySet(x, els, table);
      var item := Both(Read(Build(x), table), Cmp(Eq), Read(BuildEls(els), table));
      var meant := CBin(Cmp(Eq), ToC(x, table), ToC(els.e, table));
      EmptyRest(item, Build(x), table);
      if item.None? {
        NothingIsRead(Build(x), BuildEls(els).next, table);
      } else if els.More? {
        if Readable(x) {
          RestIff(item.value, meant, x, els.rest, table);
        } else if ReadRest(item, Build(x), BuildEls(els.rest), table) == Some(AnyOf(meant, ToC(x, table), els.rest, table)) {
          SameStart(item.value, meant, Build(x), BuildEls(els.rest), ToC(x, table), els.rest, table);
        }
      }
    }
  }

  lemma EmptyRest(acc: Option<CExpr>, x: Node, table: Table)
    ensures ReadRest(acc, x, Null, table) == acc
  {
  }
}

/**
  The C text that is generated for an HCL expression has the expression's value: for everything
  that the checks accept exactly when the Boolean signals are bits, and if the elements of sets are
  numbers exactly when those signals are zero or odd.
 */
module HclMeaning {
  import opened CText
  import opened HclGen
  import opened HclReads
  import opened Options

  predicate IsBit(w: Word) { w == 0 || w == 1 }

  /** `&` and `|` on such words are the logical operations on their truth values. */
  predicate ZeroOrOdd(w: Word) { w == 0 || IsOdd(w) }

  /** Every Boolean signal that a name stands for. */
  ghost predicate Booleans(table: Table, sig: string -> Word, strict: bool) {
    forall name: string ::
      Find(table, name).At? && Find(table, name).sym.isbool ==>
        var w := sig(Find(table, name).sym.text);
        if strict then IsBit(w) else ZeroOrOdd(w)
  }

  /** How the C value c agrees with the HCL value m of a Boolean or of a number. */
  predicate Agrees(strict: bool, isbool: bool, c: Word, m: Word) {
    if strict then c == m && (isbool ==> IsBit(c))
    else if isbool then ZeroOrOdd(c) && IsBit(m) && (c != 0 <==> m != 0)
    else c == m
  }

  lemma BitOperations(x: Word, y: Word)
    ensures IsBit(x) && IsBit(y) ==> AndWord(x, y) == Bit(x != 0 && y != 0) && OrWord(x, y) == Bit(x != 0 || y != 0)
    ensures ZeroOrOdd(x) && ZeroOrOdd(y) ==>
      && ZeroOrOdd(AndWord(x, y)) && (AndWord(x, y) != 0 <==> x != 0 && y != 0)
      && ZeroOrOdd(OrWord(x, y)) && (OrWord(x, y) != 0 <==> x != 0 || y != 0)
  {
    hide AndWord, OrWord, IsOdd;
    OddWords(x, y);
    OddWords(AndWord(x, y), OrWord(x, y));
    ZeroAndOne(x);
    ZeroAndOne(y);
  }

  lemma SmallNumerals()
    ensures Atoll("0") == 0 && Atoll("1") == 1 && CRead("0") == 0 && CRead("1") == 1
    ensures ToWord(0) == 0 && ToWord(1) == 1
  {
    assert "0"[..0] == "" && "1"[..0] == "";
  }

  /** The type an expression has by itself; a numeral counts as a number. */
  predicate KindOf(e: Expr, table: Table) {
    match e
    case Var(name) => Find(table, name).At? && Find(table, name).sym.isbool
    case Num(_) => false
    case Case(_) => false
    case _ => true
  }

  lemma KindIsChecked(e: Expr, table: Table)
    requires Known(e, table)
    ensures CheckArg(Build(e), KindOf(e, table), table)
  {
    if e.Case? {
      hide Build;
      assert BuildArms(e.arms).N?;
    }
  }

  // ---------- Every expression ----------

  /** Meaning and Value, one step. */
  lemma MeaningOf(e: Expr, table: Table, sig: string -> Word)
    ensures e.Num? ==> Meaning(e, table, sig) == ToWord(Atoll(e.text))
    ensures e.Var? && Find(table, e.name).At? ==>
      var sym := Find(table, e.name).sym;
      Meaning(e, table, sig) == if sym.isbool then Bit(sig(sym.text) != 0) else sig(sym.text)
    ensures e.Not? ==> Meaning(e, table, sig) == Bit(Meaning(e.e, table, sig) == 0)
    ensures e.And? ==> Meaning(e, table, sig) == Bit(Meaning(e.l, table, sig) != 0 && Meaning(e.r, table, sig) != 0)
    ensures e.Or? ==> Meaning(e, table, sig) == Bit(Meaning(e.l, table, sig) != 0 || Meaning(e.r, table, sig) != 0)
    ensures e.Comp? ==> Meaning(e, table, sig) == Bit(Compares(e.op, Meaning(e.l, table, sig), Meaning(e.r, table, sig)))
    ensures e.In? ==> Meaning(e, table, sig) == Bit(Among(Meaning(e.e, table, sig), e.els, table, sig))
    ensures e.Case? ==> Meaning(e, table, sig) == FirstTrue(e.arms, table, sig)
  {
    hide ToWord, Atoll, Compares;
  }

  lemma {:induction false} ValueOf(e: Expr, table: Table, sig: string -> Word)
    ensures e.Num? ==> Value(ToC(e, table), sig) == ToWord(CRead(e.text))
    ensures e.Var? && Find(table, e.name).At? ==> Value(ToC(e, table), sig) == sig(Find(table, e.name).sym.text)
    ensures e.Not? ==> Value(ToC(e, table), sig) == Bit(Value(ToC(e.e, table), sig) == 0)
    ensures e.And? ==> Value(ToC(e, table), sig) == AndWord(Value(ToC(e.l, table), sig), Value(ToC(e.r, table), sig))
    ensures e.Or? ==> Value(ToC(e, table), sig) == OrWord(Value(ToC(e.l, table), sig), Value(ToC(e.r, table), sig))
    ensures e.Comp? ==>
      Value(ToC(e, table), sig) == Bit(Compares(e.op, Value(ToC(e.l, table), sig), Value(ToC(e.r, table), sig)))
    ensures e.Case? ==> ToC(e, table) == FirstOf(e.arms, table)
  {
    hide ToWord, CRead, AndWord, OrWord, Compares, Find, AnyOf, FirstOf;
  }

  lemma ValueOfOne(x: Expr, el: Expr, table: Table, sig: string -> Word)
    ensures Value(ToC(In(x, One(el)), table), sig) == Bit(Value(ToC(x, table), sig) == Value(ToC(el, table), sig))
  {
    hide ToC, Value;
    MeantBySet(x, One(el), table);
    EqValue(ToC(x, table), ToC(el, table), sig);
  }

  lemma {:induction false} Preserves(e: Expr, table: Table, sig: string -> Word, strict: bool, isbool: bool)
    requires Known(e, table) && Checked(e, table) && CheckArg(Build(e), isbool, table)
    requires Booleans(table, sig, strict) && (strict || NumberSets(e, table))
    ensures Agrees(strict, isbool, Value(ToC(e, table), sig), Meaning(e, table, sig))
    decreases e, 0
  {
    hide Compares, ToWord, Atoll, CRead, AndWord, OrWord, IsOdd, ToC, Value, Meaning;
    MeaningOf(e, table, sig);
    ValueOf(e, table, sig);
    ZeroAndOne(0);
    match e
    case Var(name) => {}
    case Num(text) => { SmallNumerals(); }
    case Not(x) => { Preserves(x, table, sig, strict, true); }
    case And(l, r) => {
      Preserves(l, table, sig, strict, true);
      Preserves(r, table, sig, strict, true);
      BitOperations(Value(ToC(l, table), sig), Value(ToC(r, table), sig));
    }
    case Or(l, r) => {
      Preserves(l, table, sig, strict, true);
      Preserves(r, table, sig, strict, true);
      BitOperations(Value(ToC(l, table), sig), Value(ToC(r, table), sig));
    }
    case Comp(op, l, r) => {
      Preserves(l, table, sig, strict, false);
      Preserves(r, table, sig, strict, false);
    }
    case In(x, els) => {
      Preserves(x, table, sig, strict, false);
      SetPreserves(x, els, table, sig, strict);
    }
    case Case(arms) => { ArmsPreserve(arms, table, sig, strict); }
  }

  lemma ElementPreserves(x: Expr, el: Expr, table: Table, sig: string -> Word, strict: bool)
    requires Known(el, table) && Checked(el, table)
    requires Booleans(table, sig, strict) && (strict || (NumberSets(el, table) && CheckArg(Build(el), false, table)))
    requires Value(ToC(x, table), sig) == Meaning(x, table, sig)
    ensures Value(CBin(Cmp(Eq), ToC(x, table), ToC(el, table)), sig) == Bit(Meaning(x, table, sig) == Meaning(el, table, sig))
    decreases el, 1
  {
    hide ToC, Meaning, Value, Build, Compares, IsOdd, Known, Checked, NumberSets, Booleans;
    KindIsChecked(el, table);
    EqValue(ToC(x, table), ToC(el, table), sig);
    Preserves(el, table, sig, strict, if strict then KindOf(el, table) else false);
  }

  lemma EqValue(a: CExpr, b: CExpr, sig: string -> Word)
    ensures Value(CBin(Cmp(Eq), a, b), sig) == Bit(Value(a, sig) == Value(b, sig))
  {
    hide ToWord, CRead, AndWord, OrWord;
  }

  lemma OrValue(a: CExpr, b: CExpr, sig: string -> Word)
    ensures Value(CBin(BarBar, a, b), sig) == Bit(Value(a, sig) != 0 || Value(b, sig) != 0)
  {
    hide ToWord, CRead, AndWord, OrWord, Compares;
  }

  lemma SetPreserves(x: Expr, els: Exprs, table: Table, sig: string -> Word, strict: bool)
    requires KnownEls(els, table) && CheckedEls(els, table)
    requires Booleans(table, sig, strict) && (strict || NumberEls(els, table))
    requires Value(ToC(x, table), sig) == Meaning(x, table, sig)
    ensures Value(ToC(In(x, els), table), sig) == Bit(Among(Meaning(x, table, sig), els, table, sig))
    decreases els
  {
    hide ToC, Meaning, AnyOf, Build;
    MeantBySet(x, els, table);
    ElementPreserves(x, els.e, table, sig, strict);
    if els.More? {
      RestPreserves(CBin(Cmp(Eq), ToC(x, table), ToC(els.e, table)), x, els.rest, table, sig, strict);
    }
  }

  lemma {:induction false} RestPreserves(acc: CExpr, x: Expr, els: Exprs, table: Table, sig: string -> Word, strict: bool)
    requires KnownEls(els, table) && CheckedEls(els, table)
    requires Booleans(table, sig, strict) && (strict || NumberEls(els, table))
    requires Value(ToC(x, table), sig) == Meaning(x, table, sig)
    ensures Value(AnyOf(acc, ToC(x, table), els, table), sig)
         == Bit(Value(acc, sig) != 0 || Among(Meaning(x, table, sig), els, table, sig))
    decreases els
  {
    hide ToC, Meaning, Build, Value;
    ElementPreserves(x, els.e, table, sig, strict);
    OrValue(acc, CBin(Cmp(Eq), ToC(x, table), ToC(els.e, table)), sig);
    if els.More? {
      RestPreserves(CBin(BarBar, acc, CBin(Cmp(Eq), ToC(x, table), ToC(els.e, table))), x, els.rest, table, sig, strict);
    }
  }

  lemma {:induction false} ArmsPreserve(arms: Arms, table: Table, sig: string -> Word, strict: bool)
    requires KnownArms(arms, table) && CheckedArms(arms, table)
    requires Booleans(table, sig, strict) && (strict || NumberArms(arms, table))
    ensures Value(FirstOf(arms, table), sig) == FirstTrue(arms, table, sig)
    decreases arms
  {
    hide ToC, Build, Atoll, CRead, ToWord, Meaning, IsOdd, AndWord, OrWord;
    SmallNumerals();
    if arms.Arm? { MeaningOf(arms.guard, table, sig); }
    if arms.Arm? {
      Preserves(arms.guard, table, sig, strict, true);
      Preserves(arms.value, table, sig, strict, false);
      ArmsPreserve(arms.rest, table, sig, strict);
    }
  }

  // ---------- The theorems ----------

  /** Accepted by the type checks, and written so that C reads it as one expression. */
  predicate Accepted(e: Expr, isbool: bool, table: Table) {
    Plain(e, table) && Checked(e, table) && CheckArg(Build(e), isbool, table)
  }

  /** Everything printed for e is one C expression; its value, if it is one. */
  predicate ReadsAs(e: Expr, table: Table, c: CExpr) {
    Cond(Gen(Build(e), table)) == Done(c, [])
  }

  /** The whole text is read as its tree's reading, and as nothing else. */
  lemma TextReads(e: Expr, table: Table, c: CExpr)
    requires Known(e, table)
    ensures ReadsAs(e, table, c) <==> Read(Build(e), table) == Some(c)
  {
    hide Cond, Unary, Gen, Build, Read, Firm;
    BuildIsFirm(e, table);
    NodeReads(Build(e), table, []);
    assert Gen(Build(e), table) + [] == Gen(Build(e), table);
    OperandReads(Gen(Build(e), table), Read(Build(e), table), []);
  }

  /** C reads the text as the expression that is meant exactly when every set's chain is in order. */
  lemma TextIsMeantIff(e: Expr, table: Table)
    requires Known(e, table)
    ensures ReadsAs(e, table, ToC(e, table)) <==> Readable(e)
  {
    hide ReadsAs, Build, Read, ToC, Readable, Known;
    TextReads(e, table, ToC(e, table));
    ReadIff(e, table);
  }

  lemma TextIsOneExpression(e: Expr, table: Table)
    requires Plain(e, table)
    ensures ReadsAs(e, table, ToC(e, table))
  {
    hide ReadsAs, ToC, Readable, Known;
    TextIsMeantIff(e, table);
  }

  /** With bits for Booleans the generated text has exactly the value of the expression. */
  lemma TranslationKeepsValue(e: Expr, isbool: bool, table: Table, sig: string -> Word)
    requires Accepted(e, isbool, table) && Booleans(table, sig, true)
    ensures exists c :: ReadsAs(e, table, c) && Value(c, sig) == Meaning(e, table, sig)
  {
    hide ReadsAs, ToC, Value, Meaning, Booleans;
    TextIsOneExpression(e, table);
    Preserves(e, table, sig, true, isbool);
  }

  /** The text is true when the expression is, and a number when it is a number. */
  ghost predicate KeepsTruth(e: Expr, isbool: bool, table: Table, sig: string -> Word) {
    exists c :: ReadsAs(e, table, c) &&
      if isbool then Value(c, sig) != 0 <==> Meaning(e, table, sig) != 0 else Value(c, sig) == Meaning(e, table, sig)
  }

  lemma OneReading(e: Expr, table: Table, c: CExpr)
    requires Plain(e, table) && ReadsAs(e, table, c)
    ensures c == ToC(e, table)
  {
    hide Cond, Gen, Build, ToC, Plain;
    TextIsOneExpression(e, table);
  }

  lemma LosesTruth(e: Expr, isbool: bool, table: Table, sig: string -> Word)
    requires Plain(e, table)
    requires !if isbool then Value(ToC(e, table), sig) != 0 <==> Meaning(e, table, sig) != 0
              else Value(ToC(e, table), sig) == Meaning(e, table, sig)
    ensures !KeepsTruth(e, isbool, table, sig)
  {
    hide ReadsAs, Value, Meaning, ToC, Plain;
    forall c | ReadsAs(e, table, c) ensures c == ToC(e, table) { OneReading(e, table, c); }
  }

  /** A Boolean signal that is even but not zero is lost by `&`. */
  lemma EvenSignalIsLost(name: string, table: Table, sig: string -> Word)
    requires Find(table, name).At? && Find(table, name).sym.isbool && !ZeroOrOdd(sig(Find(table, name).sym.text))
    ensures var e := And(Var(name), Num("1"));
      Accepted(e, true, table) && NumberSets(e, table) && !KeepsTruth(e, true, table, sig)
  {
    hide Value, Meaning, ToC, KeepsTruth, Atoll, CRead, ToWord, AndWord, IsOdd, Gen;
    SmallNumerals();
    var one, e := Num("1"), And(Var(name), Num("1"));
    var w := sig(Find(table, name).sym.text);
    ZeroAndOne(w);
    ValueOf(one, table, sig);
    ValueOf(Var(name), table, sig);
    ValueOf(e, table, sig);
    MeaningOf(one, table, sig);
    MeaningOf(Var(name), table, sig);
    MeaningOf(e, table, sig);
    assert Plain(one, table) && Plain(Var(name), table);
    assert Plain(e, table) && Checked(e, table) && CheckArg(Build(e), true, table);
    assert NumberSets(e, table);
    LosesTruth(e, true, table, sig);
  }

  /** All expressions whose sets hold numbers keep their truth exactly when the Boolean signals are zero or odd. */
  lemma TruthIsKeptIff(table: Table, sig: string -> Word)
    ensures
      (forall e, isbool :: Accepted(e, isbool, table) && NumberSets(e, table) ==> KeepsTruth(e, isbool, table, sig))
      <==> Booleans(table, sig, false)
  {
    hide Accepted, NumberSets, KeepsTruth;
    if Booleans(table, sig, false) {
      forall e, isbool | Accepted(e, isbool, table) && NumberSets(e, table) ensures KeepsTruth(e, isbool, table, sig) {
        TruthIsKept(e, isbool, table, sig);
      }
    } else {
      var name: string :| Find(table, name).At? && Find(table, name).sym.isbool
                          && !ZeroOrOdd(sig(Find(table, name).sym.text));
      EvenSignalIsLost(name, table, sig);
    }
  }

  lemma TruthIsKept(e: Expr, isbool: bool, table: Table, sig: string -> Word)
    requires Accepted(e, isbool, table) && NumberSets(e, table) && Booleans(table, sig, false)
    ensures KeepsTruth(e, isbool, table, sig)
  {
    hide ReadsAs, ToC, Value, Meaning, Booleans, NumberSets;
    TextIsOneExpression(e, table);
    Preserves(e, table, sig, false, isbool);
  }

  /** make_ele never looks at the elements: a Boolean among them that is not a bit is compared as it is. */
  lemma OddElementIsLost(name: string, table: Table, sig: string -> Word)
    requires Find(table, name).At? && Find(table, name).sym.isbool
    requires sig(Find(table, name).sym.text) != 0 && sig(Find(table, name).sym.text) != 1
    ensures var e := In(Num("1"), One(Var(name)));
      Accepted(e, true, table) && !KeepsTruth(e, true, table, sig)
  {
    hide Value, Meaning, ToC, KeepsTruth, Atoll, CRead, ToWord, AndWord, IsOdd, Gen;
    SmallNumerals();
    var one, b := Num("1"), Var(name);
    var e := In(one, One(b));
    ValueOf(one, table, sig);
    ValueOf(b, table, sig);
    ValueOfOne(one, b, table, sig);
    MeaningOf(one, table, sig);
    MeaningOf(b, table, sig);
    MeaningOf(e, table, sig);
    assert Known(one, table) && Known(b, table) && Readable(one) && Readable(b) && Build(one).next == Null;
    assert KnownEls(e.els, table) && ReadableEls(e.els) && CheckedEls(e.els, table);
    assert Known(e, table) && Readable(e);
    assert CheckArg(Build(one), false, table) && CheckChain(Build(one).next, table) && CheckChain(Build(one), table);
    assert Checked(e, table);
    assert CheckArg(Build(e), true, table);
    LosesTruth(e, true, table, sig);
  }

  /** Everything that the checks accept keeps its truth exactly when the Boolean signals are bits. */
  lemma AcceptedIsKeptIff(table: Table, sig: string -> Word)
    ensures (forall e, isbool :: Accepted(e, isbool, table) ==> KeepsTruth(e, isbool, table, sig)) <==> Booleans(table, sig, true)
  {
    hide Accepted, KeepsTruth;
    if Booleans(table, sig, true) {
      forall e, isbool | Accepted(e, isbool, table) ensures KeepsTruth(e, isbool, table, sig) {
        ValueIsTruth(e, isbool, table, sig);
      }
    } else {
      var name: string :| Find(table, name).At? && Find(table, name).sym.isbool && !IsBit(sig(Find(table, name).sym.text));
      OddElementIsLost(name, table, sig);
    }
  }

  lemma ValueIsTruth(e: Expr, isbool: bool, table: Table, sig: string -> Word)
    requires Accepted(e, isbool, table) && Booleans(table, sig, true)
    ensures KeepsTruth(e, isbool, table, sig)
  {
    hide ReadsAs, Value, Meaning, Booleans, Accepted;
    TranslationKeepsValue(e, isbool, table, sig);
  }

  // ---------- A case among the elements of a set ----------

  function Choice(): Arms { Arm(Num("1"), Num("1"), Arm(Num("1"), Num("2"), NoArms)) }

  function ChoiceSet(): Expr { In(Num("2"), One(Case(Choice()))) }

  function Leaf(text: string): Node { N(KNum(text), false, Null, Null, Null) }

  lemma ChoiceChain()
    ensures Build(Case(Choice())) == N(KCase, false, Leaf("1"), Leaf("1"), N(KCase, false, Leaf("1"), Leaf("2"), Null))
    ensures Build(ChoiceSet()) == N(KEle, true, Leaf("2"), Build(Case(Choice())), Null)
  {
    hide ToWord, Atoll;
    assert BuildArms(NoArms) == Null;
    assert BuildArms(Arm(Num("1"), Num("2"), NoArms)) == N(KCase, false, Leaf("1"), Leaf("2"), Null);
  }

  lemma ChoiceReads(table: Table)
    ensures Read(Build(ChoiceSet()), table) ==
      Some(CBin(BarBar, CBin(Cmp(Eq), CLit("2"), CLit("1")), CBin(Cmp(Eq), CLit("2"), CLit("2"))))
  {
    SmallNumerals();
    ChoiceChain();
    hide Build, Atoll;
    var last := N(KCase, false, Leaf("1"), Leaf("2"), Null);
    var chain := N(KCase, false, Leaf("1"), Leaf("1"), last);
    assert IsDefault(Leaf("1")) && Read(Leaf("1"), table) == Some(CLit("1")) && Read(Leaf("2"), table) == Some(CLit("2"));
    hide IsDefault, Leaf;
    CaseIsRead(chain, table);
    CaseIsRead(last, table);
    SetOfNode(Leaf("2"), chain, table);
    EmptyRest(Read(Build(ChoiceSet()), table), Leaf("2"), table);
  }

  /**
    A case in a set shares its chain of arms with the set: 2 in {[1 : 1; 1 : 2]} is false, since the
    first arm gives 1, but the text also compares 2 with the second arm alone.
   */
  lemma CaseInSetLosesValue(table: Table, sig: string -> Word)
    ensures Known(ChoiceSet(), table) && !Readable(ChoiceSet())
    ensures Checked(ChoiceSet(), table) && NumberSets(ChoiceSet(), table) && CheckArg(Build(ChoiceSet()), true, table)
    ensures Meaning(ChoiceSet(), table, sig) == 0
    ensures exists c :: ReadsAs(ChoiceSet(), table, c) && Value(c, sig) == 1
  {
    hide Cond, Gen, Build, Meaning, Checked, NumberSets, Value, Atoll, Read, ReadsAs, Known;
    ChoiceIsChecked(table);
    ChoiceMeansOne(table, sig);
    var c1, c2 := CBin(Cmp(Eq), CLit("2"), CLit("1")), CBin(Cmp(Eq), CLit("2"), CLit("2"));
    ChoiceReads(table);
    TextReads(ChoiceSet(), table, CBin(BarBar, c1, c2));
    OrValue(c1, c2, sig);
    EqValue(CLit("2"), CLit("2"), sig);
  }

  lemma ChoiceIsChecked(table: Table)
    ensures Known(ChoiceSet(), table)
    ensures Checked(ChoiceSet(), table) && NumberSets(ChoiceSet(), table) && CheckArg(Build(ChoiceSet()), true, table)
  {
    SmallNumerals();
    TwoIsRead();
    ChoiceChain();
    hide Atoll, CRead, ToWord;
    var e := ChoiceSet();
    assert Build(Num("1")) == Leaf("1") && Build(Num("2")) == Leaf("2");
    assert CheckArg(Leaf("1"), true, table) && CheckArg(Leaf("1"), false, table) && CheckArg(Leaf("2"), false, table);
    assert CheckChain(Leaf("2"), table);
    var last := Arm(Num("1"), Num("2"), NoArms);
    assert CheckedArms(last, table) && NumberArms(last, table) && KnownArms(last, table);
    assert CheckedArms(Choice(), table) && NumberArms(Choice(), table) && KnownArms(Choice(), table);
    assert Checked(Case(Choice()), table) && NumberSets(Case(Choice()), table) && Known(Case(Choice()), table);
    assert CheckArg(Build(Case(Choice())), false, table);
    assert CheckedEls(e.els, table) && NumberEls(e.els, table) && KnownEls(e.els, table);
  }

  lemma ChoiceMeansOne(table: Table, sig: string -> Word)
    ensures Meaning(ChoiceSet(), table, sig) == 0
  {
    hide Atoll, ToWord, Meaning;
    SmallNumerals();
    TwoIsRead();
    MeaningOf(Num("1"), table, sig);
    MeaningOf(Num("2"), table, sig);
    MeaningOf(Case(Choice()), table, sig);
    assert FirstTrue(Choice(), table, sig) == 1;
    MeaningOf(ChoiceSet(), table, sig);
  }

  lemma TwoIsRead()
    ensures Atoll("2") == 2 && CRead("2") == 2 && ToWord(2) == 2
  {
    hide ToWord;
    assert "2"[..0] == "";
    WordTwo();
  }

  lemma {:induction false} WordTwo()
    ensures ToWord(2) == 2
  {
    var two: Word := 2;
    assert two as int == 2;
    assert (two as int) as Word == two;
  }

  lemma CaseOfOne(g: Expr, v: Expr, table: Table)
    requires Known(g, table) && Known(v, table) && Readable(g) && Readable(v)
    ensures var e := Case(Arm(g, v, NoArms));
      Known(e, table) && Readable(e) && (EndsCase(e) <==> IsOne(g) && IsZero(v))
  {
    hide IsOne;
    assert KnownArms(NoArms, table) && ReadableArms(NoArms);
    assert KnownArms(Arm(g, v, NoArms), table) && ReadableArms(Arm(g, v, NoArms));
  }

  /** A case that is not last and has no default is read right all the same before an element that ends it. */
  lemma CaseBeforeCaseIsMeant(name: string, table: Table)
    requires Find(table, name).At?
    ensures var e := In(Num("2"), More(Case(Arm(Var(name), Num("1"), NoArms)), One(Case(Arm(Num("1"), Num("0"), NoArms)))));
      ReadsAs(e, table, ToC(e, table))
  {
    hide ReadsAs, ToC, Atoll, CRead;
    SmallNumerals();
    TwoIsRead();
    var one, zero, two := Num("1"), Num("0"), Num("2");
    var first, second := Case(Arm(Var(name), one, NoArms)), Case(Arm(one, zero, NoArms));
    assert Known(one, table) && Known(zero, table) && Known(two, table) && Known(Var(name), table);
    assert Readable(one) && Readable(zero) && Readable(two) && Readable(Var(name));
    CaseOfOne(Var(name), one, table);
    CaseOfOne(one, zero, table);
    SetOfTwo(two, first, second, table);
    TextIsMeantIff(In(two, More(first, One(second))), table);
  }

  lemma SetOfTwo(x: Expr, a: Expr, b: Expr, table: Table)
    requires Known(x, table) && Known(a, table) && Known(b, table) && Readable(x) && Readable(a) && Readable(b)
    requires (a.Case? ==> OneArm(a.arms) && EndsCase(b)) && (b.Case? ==> OneArm(b.arms))
    ensures Known(In(x, More(a, One(b))), table) && Readable(In(x, More(a, One(b))))
  {
    hide EndsCase, OneArm;
    assert KnownEls(One(b), table) && ReadableEls(One(b));
    assert KnownEls(More(a, One(b)), table) && ReadableEls(More(a, One(b)));
  }
}

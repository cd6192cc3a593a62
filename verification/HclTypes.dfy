/**
  What the checks of the translator accept, told by the types of the expressions alone.
 */
module HclTypes {
  import opened CText
  import opened HclGen
  import opened HclMeaning

  /**
    The expression has the type Boolean, or that of numbers.  A numeral is always a number, and a
    Boolean if it is written 0 or 1; the elements of a set may have either type.
   */
  predicate HasType(e: Expr, isbool: bool, table: Table) {
    match e
    case Var(name) => Declared(table, name, isbool)
    case Num(text) => isbool ==> text == "0" || text == "1"
    case Not(x) => isbool && HasType(x, true, table)
    case And(l, r) => isbool && HasType(l, true, table) && HasType(r, true, table)
    case Or(l, r) => isbool && HasType(l, true, table) && HasType(r, true, table)
    case Comp(_, l, r) => isbool && HasType(l, false, table) && HasType(r, false, table)
    case In(x, els) => isbool && HasType(x, false, table) && AnyTypes(els, table)
    case Case(arms) => !isbool && ArmTypes(arms, table)
  }

  predicate AnyTypes(els: Exprs, table: Table) {
    (HasType(els.e, true, table) || HasType(els.e, false, table)) && (els.More? ==> AnyTypes(els.rest, table))
  }

  predicate ArmTypes(arms: Arms, table: Table) {
    arms.Arm? ==> HasType(arms.guard, true, table) && HasType(arms.value, false, table) && ArmTypes(arms.rest, table)
  }

  /** The first declaration of the name is one of that type. */
  predicate Declared(table: Table, name: string, isbool: bool) {
    exists i | 0 <= i < |table| ::
      table[i].name == name && table[i].isbool == isbool && forall j | 0 <= j < i :: table[j].name != name
  }

  lemma {:induction false} FoundIsDeclared(table: Table, name: string, isbool: bool)
    ensures Declared(table, name, isbool) <==> Find(table, name).At? && Find(table, name).sym.isbool == isbool
  {
    if |table| > 0 && table[0].name != name {
      FoundIsDeclared(table[1..], name, isbool);
      if Declared(table[1..], name, isbool) {
        var i :| 0 <= i < |table[1..]| && table[1..][i].name == name && table[1..][i].isbool == isbool
                 && forall j | 0 <= j < i :: table[1..][j].name != name;
        assert table[i + 1] == table[1..][i];
        forall j | 0 <= j < i + 1 ensures table[j].name != name {
          if j > 0 { assert table[1..][j - 1].name != name; }
        }
        assert table[i + 1].name == name && table[i + 1].isbool == isbool;
      }
      if Declared(table, name, isbool) {
        var i :| 0 <= i < |table| && table[i].name == name && table[i].isbool == isbool
                 && forall j | 0 <= j < i :: table[j].name != name;
        assert table[1..][i - 1] == table[i];
        forall j | 0 <= j < i - 1 ensures table[1..][j].name != name { assert table[j + 1].name != name; }
        assert table[1..][i - 1].name == name && table[1..][i - 1].isbool == isbool;
      }
    } else if |table| > 0 {
      FirstIsDeclared(table, name, isbool);
    }
  }

  lemma FirstIsDeclared(table: Table, name: string, isbool: bool)
    requires |table| > 0 && table[0].name == name
    ensures Declared(table, name, isbool) <==> table[0].isbool == isbool
  {
    if Declared(table, name, isbool) {
      var i :| 0 <= i < |table| && table[i].name == name && table[i].isbool == isbool
               && forall j | 0 <= j < i :: table[j].name != name;
      assert i == 0;
    }
  }

  lemma {:induction false} ArmsPassChain(arms: Arms, table: Table)
    ensures CheckChain(BuildArms(arms), table)
  {
    hide Build;
    if arms.Arm? {
      ArmsPassChain(arms.rest, table);
      assert Concat(Null, BuildArms(arms.rest)) == BuildArms(arms.rest);
    }
  }

  /** The loop of make_ele looks at no more than its first test does. */
  lemma ChainAddsNothing(e: Expr, table: Table)
    requires CheckArg(Build(e), false, table)
    ensures CheckChain(Build(e), table)
  {
    if e.Case? { ArmsPassChain(e.arms, table); }
  }

  /** What the check of one node says. */
  lemma NodeCheck(e: Expr, isbool: bool, table: Table)
    requires Known(e, table)
    ensures e.Var? ==> (CheckArg(Build(e), isbool, table) <==> Declared(table, e.name, isbool))
    ensures e.Num? ==> (CheckArg(Build(e), isbool, table) <==> !isbool || e.text == "0" || e.text == "1")
    ensures e.Case? ==> (CheckArg(Build(e), isbool, table) <==> !isbool)
    ensures !e.Var? && !e.Num? && !e.Case? ==> (CheckArg(Build(e), isbool, table) <==> isbool)
  {
    if e.Var? { FoundIsDeclared(table, e.name, isbool); }
    hide Declared;
    if e.Case? {
      hide Build;
      assert Build(e) == BuildArms(e.arms) by { BuildOf(e.arms); }
      assert BuildArms(e.arms).N? && BuildArms(e.arms).kind.KCase? && !BuildArms(e.arms).isbool;
    }
  }

  lemma BuildOf(arms: Arms)
    ensures Build(Case(arms)) == BuildArms(arms)
  {
  }

  /** The checks accept an expression for a type exactly if it has the type. */
  lemma {:induction false} AcceptedIffTyped(e: Expr, isbool: bool, table: Table)
    requires Known(e, table)
    ensures Checked(e, table) && CheckArg(Build(e), isbool, table) <==> HasType(e, isbool, table)
    ensures Checked(e, table) <==> HasType(e, true, table) || HasType(e, false, table)
    decreases e, 1
  {
    hide Declared, CheckArg, Build;
    NodeCheck(e, true, table);
    NodeCheck(e, false, table);
    match e
    case Var(_) => { SomeType(e, table); }
    case Num(_) => {}
    case Not(x) => { AcceptedIffTyped(x, true, table); }
    case And(l, r) => { AcceptedIffTyped(l, true, table); AcceptedIffTyped(r, true, table); }
    case Or(l, r) => { AcceptedIffTyped(l, true, table); AcceptedIffTyped(r, true, table); }
    case Comp(_, l, r) => { AcceptedIffTyped(l, false, table); AcceptedIffTyped(r, false, table); }
    case In(x, els) => {
      AcceptedIffTyped(x, false, table);
      ElementsIff(els, table);
      if CheckArg(Build(x), false, table) { ChainAddsNothing(x, table); }
    }
    case Case(arms) => { ArmsIff(arms, table); }
  }

  lemma SomeType(e: Expr, table: Table)
    requires e.Var? && Known(e, table)
    ensures Declared(table, e.name, true) || Declared(table, e.name, false)
  {
    FoundIsDeclared(table, e.name, true);
    FoundIsDeclared(table, e.name, false);
    hide Declared;
  }

  lemma {:induction false} ElementsIff(els: Exprs, table: Table)
    requires KnownEls(els, table)
    ensures CheckedEls(els, table) <==> AnyTypes(els, table)
    decreases els
  {
    hide CheckArg, Build;
    AcceptedIffTyped(els.e, true, table);
    if els.More? { ElementsIff(els.rest, table); }
  }

  lemma {:induction false} ArmsIff(arms: Arms, table: Table)
    requires KnownArms(arms, table)
    ensures CheckedArms(arms, table) <==> ArmTypes(arms, table)
    decreases arms
  {
    hide CheckArg, Build;
    if arms.Arm? {
      AcceptedIffTyped(arms.guard, true, table);
      AcceptedIffTyped(arms.value, false, table);
      ArmsIff(arms.rest, table);
    }
  }

  /** The expressions that the theorems on the translation speak about. */
  lemma AcceptedMeans(e: Expr, isbool: bool, table: Table)
    ensures Accepted(e, isbool, table) <==> Known(e, table) && Readable(e) && HasType(e, isbool, table)
  {
    hide Known, Readable, HasType, Checked, CheckArg, Build;
    if Known(e, table) { AcceptedIffTyped(e, isbool, table); }
  }
}

/**
  The translator from HCL to C: the parse tree that the grammar's actions chain together, the
  type checks, the text that gen_expr prints, and what that text means when C reads it.
 */
module HclGen {
  import opened CText

  // ---------- HCL expressions and what they mean ----------

  datatype Expr =
    | Var(name: string)
    | Num(text: string)
    | Not(e: Expr)
    | And(l: Expr, r: Expr)
    | Or(l: Expr, r: Expr)
    | Comp(op: CmpOp, l: Expr, r: Expr)
    | In(e: Expr, els: Exprs)
    | Case(arms: Arms)

  datatype Exprs = One(e: Expr) | More(e: Expr, rest: Exprs)

  datatype Arms = NoArms | Arm(guard: Expr, value: Expr, rest: Arms)

  datatype Symbol = Symbol(name: string, text: string, isbool: bool)

  type Table = seq<Symbol>

  datatype Found = Missing | At(sym: Symbol)

  /** find_symbol: the first entry of that name. */
  function Find(table: Table, name: string): Found {
    if |table| == 0 then Missing
    else if table[0].name == name then At(table[0])
    else Find(table[1..], name)
  }

  /** The value of an HCL expression; Booleans are 0 and 1. */
  function Meaning(e: Expr, table: Table, sig: string -> Word): Word
    decreases e
  {
    match e
    case Var(name) =>
      (match Find(table, name)
       case Missing => 0
       case At(sym) => if sym.isbool then Bit(sig(sym.text) != 0) else sig(sym.text))
    case Num(text) => ToWord(Atoll(text))
    case Not(x) => Bit(Meaning(x, table, sig) == 0)
    case And(l, r) => Bit(Meaning(l, table, sig) != 0 && Meaning(r, table, sig) != 0)
    case Or(l, r) => Bit(Meaning(l, table, sig) != 0 || Meaning(r, table, sig) != 0)
    case Comp(op, l, r) => Bit(Compares(op, Meaning(l, table, sig), Meaning(r, table, sig)))
    case In(x, els) => Bit(Among(Meaning(x, table, sig), els, table, sig))
    case Case(arms) => FirstTrue(arms, table, sig)
  }

  predicate Among(v: Word, els: Exprs, table: Table, sig: string -> Word)
    decreases els
  {
    match els
    case One(e) => v == Meaning(e, table, sig)
    case More(e, rest) => v == Meaning(e, table, sig) || Among(v, rest, table, sig)
  }

  /** The first true case wins; 0 if there is none. */
  function FirstTrue(arms: Arms, table: Table, sig: string -> Word): Word {
    match arms
    case NoArms => 0
    case Arm(g, v, rest) => if Meaning(g, table, sig) != 0 then Meaning(v, table, sig) else FirstTrue(rest, table, sig)
  }

  // ---------- The parse tree ----------

  datatype Kind = KVar(name: string) | KNum(text: string) | KNot | KAnd | KOr | KComp(op: CmpOp) | KEle | KCase

  /** A node; next chains the elements of a set and the arms of a case. */
  datatype Node = Null | N(kind: Kind, isbool: bool, arg1: Node, arg2: Node, next: Node)

  function Concat(n1: Node, n2: Node): Node {
    if n1.Null? then n2 else n1.(next := Concat(n1.next, n2))
  }

  lemma {:induction false} ConcatAssociates(a: Node, b: Node, c: Node)
    ensures Concat(Concat(a, b), c) == Concat(a, Concat(b, c))
  {
    if a.N? { ConcatAssociates(a.next, b, c); }
  }

  /** The actions of the grammar. */
  function Build(e: Expr): Node {
    match e
    case Var(name) => N(KVar(name), false, Null, Null, Null)
    case Num(text) => N(KNum(text), false, Null, Null, Null)
    case Not(x) => N(KNot, true, Build(x), Null, Null)
    case And(l, r) => N(KAnd, true, Build(l), Build(r), Null)
    case Or(l, r) => N(KOr, true, Build(l), Build(r), Null)
    case Comp(op, l, r) => N(KComp(op), true, Build(l), Build(r), Null)
    case In(x, els) => N(KEle, true, Build(x), BuildEls(els), Null)
    case Case(arms) => BuildArms(arms)
  }

  function BuildEls(els: Exprs): Node {
    match els
    case One(e) => Build(e)
    case More(e, rest) => Concat(Build(e), BuildEls(rest))
  }

  function BuildArms(arms: Arms): Node {
    match arms
    case NoArms => Null
    case Arm(g, v, rest) => Concat(N(KCase, false, Build(g), Build(v), Null), BuildArms(rest))
  }

  /** check_arg: may the node stand where a Boolean, or where a number, is wanted? */
  predicate CheckArg(n: Node, wantbool: bool, table: Table) {
    if n.Null? then false
    else
      match n.kind
      case KVar(name) => (var f := Find(table, name); f.At? && f.sym.isbool == wantbool)
      case KNum(text) => wantbool ==> text == "0" || text == "1"
      case _ => n.isbool == wantbool
  }

  /** The loop of make_ele, which walks the chain of the value and not that of the set. */
  predicate CheckChain(n: Node, table: Table) {
    n.N? ==> CheckArg(n, false, table) && CheckChain(n.next, table)
  }

  /** No check fails while the expression is built. */
  predicate Checked(e: Expr, table: Table) {
    match e
    case Var(_) => true
    case Num(_) => true
    case Not(x) => Checked(x, table) && CheckArg(Build(x), true, table)
    case And(l, r) => Checked(l, table) && Checked(r, table) && CheckArg(Build(l), true, table) && CheckArg(Build(r), true, table)
    case Or(l, r) => Checked(l, table) && Checked(r, table) && CheckArg(Build(l), true, table) && CheckArg(Build(r), true, table)
    case Comp(_, l, r) => Checked(l, table) && Checked(r, table) && CheckArg(Build(l), false, table) && CheckArg(Build(r), false, table)
    case In(x, els) => Checked(x, table) && CheckedEls(els, table) && CheckArg(Build(x), false, table) && CheckChain(Build(x), table)
    case Case(arms) => CheckedArms(arms, table)
  }

  predicate CheckedEls(els: Exprs, table: Table) {
    Checked(els.e, table) && (els.More? ==> CheckedEls(els.rest, table))
  }

  predicate CheckedArms(arms: Arms, table: Table) {
    arms.Arm? ==>
      && Checked(arms.guard, table) && Checked(arms.value, table)
      && CheckArg(Build(arms.guard), true, table) && CheckArg(Build(arms.value), false, table)
      && CheckedArms(arms.rest, table)
  }

  // ---------- Conditions on the source text ----------

  /** Every name is in the table, numerals read the same in C, and no case is empty. */
  predicate Known(e: Expr, table: Table) {
    match e
    case Var(name) => Find(table, name).At?
    case Num(text) => CRead(text) == Atoll(text)
    case Not(x) => Known(x, table)
    case And(l, r) => Known(l, table) && Known(r, table)
    case Or(l, r) => Known(l, table) && Known(r, table)
    case Comp(_, l, r) => Known(l, table) && Known(r, table)
    case In(x, els) => Known(x, table) && KnownEls(els, table)
    case Case(arms) => arms.Arm? && KnownArms(arms, table)
  }

  predicate KnownEls(els: Exprs, table: Table) {
    Known(els.e, table) && (els.More? ==> KnownEls(els.rest, table))
  }

  predicate KnownArms(arms: Arms, table: Table) {
    arms.Arm? ==> Known(arms.guard, table) && Known(arms.value, table) && KnownArms(arms.rest, table)
  }

  /** The numeral that marks the default arm. */
  predicate IsOne(e: Expr) { e.Num? && Atoll(e.text) == 1 }

  /** Printed as 0, in parentheses or not. */
  predicate IsZero(e: Expr) {
    match e
    case Num(text) => text == "0"
    case Case(arms) => arms.Arm? && IsOne(arms.guard) && IsZero(arms.value)
    case _ => false
  }

  /** Taken for one more arm of a case, the node of e gives that case the value 0 that it should end with. */
  predicate EndsCase(e: Expr) {
    match e
    case And(l, r) => IsOne(l) && IsZero(r)
    case Or(l, r) => IsOne(l) && IsZero(r)
    case Comp(_, l, r) => IsOne(l) && IsZero(r)
    case In(x, els) => IsOne(x) && IsZero(els.e)
    case Case(arms) => IsZero(e)
    case _ => false
  }

  /**
    Where the chain of a set may hold a case: it has one arm, and it is the last element, or the
    arm is a default, or the next element happens to end it.  Arms behind a default do not matter.
   */
  predicate Readable(e: Expr) {
    match e
    case Var(_) => true
    case Num(_) => true
    case Not(x) => Readable(x)
    case And(l, r) => Readable(l) && Readable(r)
    case Or(l, r) => Readable(l) && Readable(r)
    case Comp(_, l, r) => Readable(l) && Readable(r)
    case In(x, els) => Readable(x) && ReadableEls(els)
    case Case(arms) => ReadableArms(arms)
  }

  predicate ReadableEls(els: Exprs) {
    && Readable(els.e)
    && (els.e.Case? ==> OneArm(els.e.arms) && (els.One? || IsOne(els.e.arms.guard) || EndsCase(els.rest.e)))
    && (els.More? ==> ReadableEls(els.rest))
  }

  predicate OneArm(arms: Arms) { arms.Arm? && arms.rest.NoArms? }

  predicate ReadableArms(arms: Arms) {
    arms.Arm? ==>
      Readable(arms.value) && (!IsOne(arms.guard) ==> Readable(arms.guard) && ReadableArms(arms.rest))
  }

  predicate Plain(e: Expr, table: Table) { Known(e, table) && Readable(e) }

  /** The check that make_ele leaves out: the elements of every set are numbers. */
  predicate NumberSets(e: Expr, table: Table) {
    match e
    case Var(_) => true
    case Num(_) => true
    case Not(x) => NumberSets(x, table)
    case And(l, r) => NumberSets(l, table) && NumberSets(r, table)
    case Or(l, r) => NumberSets(l, table) && NumberSets(r, table)
    case Comp(_, l, r) => NumberSets(l, table) && NumberSets(r, table)
    case In(x, els) => NumberSets(x, table) && NumberEls(els, table)
    case Case(arms) => NumberArms(arms, table)
  }

  predicate NumberEls(els: Exprs, table: Table) {
    CheckArg(Build(els.e), false, table) && NumberSets(els.e, table) && (els.More? ==> NumberEls(els.rest, table))
  }

  predicate NumberArms(arms: Arms, table: Table) {
    arms.Arm? ==> NumberSets(arms.guard, table) && NumberSets(arms.value, table) && NumberArms(arms.rest, table)
  }

  // ---------- What gen_expr prints ----------

  function Weight(n: Node): nat {
    if n.Null? then 0 else 1 + Weight(n.arg1) + Weight(n.arg2) + Weight(n.next)
  }

  predicate IsDefault(n: Node) { n.N? && n.kind.KNum? && Atoll(n.kind.text) == 1 }

  function Gen(n: Node, table: Table): seq<Tok>
    decreases Weight(n), 1
  {
    if n.Null? then []
    else
      match n.kind
      case KVar(name) => (match Find(table, name) case Missing => [] case At(sym) => [Sig(sym.text)])
      case KNum(text) => [Lit(text)]
      case KNot => [Bang] + Gen(n.arg1, table)
      case KAnd => [LParen] + (Gen(n.arg1, table) + ([Amp] + (Gen(n.arg2, table) + [RParen])))
      case KOr => [LParen] + (Gen(n.arg1, table) + ([Bar] + (Gen(n.arg2, table) + [RParen])))
      case KComp(op) => [LParen] + (Gen(n.arg1, table) + ([Cmp(op)] + (Gen(n.arg2, table) + [RParen])))
      case KEle => [LParen] + (GenEls(n.arg1, n.arg2, table) + [RParen])
      case KCase => [LParen] + (GenArms(n, table) + [RParen])
  }

  function GenEls(x: Node, ele: Node, table: Table): seq<Tok>
    decreases Weight(x) + Weight(ele), 2
  {
    if ele.Null? then []
    else
      Gen(x, table) + ([Cmp(Eq)] + (Gen(ele, table)
      + ((if ele.next.N? then [BarBar] else []) + GenEls(x, ele.next, table))))
  }

  function GenArms(ele: Node, table: Table): seq<Tok>
    decreases Weight(ele), 0
  {
    if ele.Null? then [Lit("0")]
    else if IsDefault(ele.arg1) then Gen(ele.arg2, table)
    else Gen(ele.arg1, table) + ([Quest] + (Gen(ele.arg2, table) + ([Colon] + GenArms(ele.next, table))))
  }

  // ---------- The C expression that is meant ----------

  function ToC(e: Expr, table: Table): CExpr
    decreases e
  {
    match e
    case Var(name) => (match Find(table, name) case Missing => CLit("0") case At(sym) => CSig(sym.text))
    case Num(text) => CLit(text)
    case Not(x) => CNot(ToC(x, table))
    case And(l, r) => CBin(Amp, ToC(l, table), ToC(r, table))
    case Or(l, r) => CBin(Bar, ToC(l, table), ToC(r, table))
    case Comp(op, l, r) => CBin(Cmp(op), ToC(l, table), ToC(r, table))
    case In(x, els) =>
      var first := CBin(Cmp(Eq), ToC(x, table), ToC(els.e, table));
      if els.One? then first else AnyOf(first, ToC(x, table), els.rest, table)
    case Case(arms) => FirstOf(arms, table)
  }

  function AnyOf(acc: CExpr, x: CExpr, els: Exprs, table: Table): CExpr
    decreases els
  {
    var next := CBin(BarBar, acc, CBin(Cmp(Eq), x, ToC(els.e, table)));
    if els.One? then next else AnyOf(next, x, els.rest, table)
  }

  function FirstOf(arms: Arms, table: Table): CExpr {
    if arms.NoArms? then CLit("0")
    else if IsOne(arms.guard) then ToC(arms.value, table)
    else CCond(ToC(arms.guard, table), ToC(arms.value, table), FirstOf(arms.rest, table))
  }
}

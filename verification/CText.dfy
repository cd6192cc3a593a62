/**
  The fragment of C that the HCL translator emits: its tokens, a parser with C's precedence
  levels, and the value of an expression.
 */
module CText {
  import opened Options

  type Word = bv64

  datatype CmpOp = Eq | Ne | Lt | Le | Gt | Ge

  /** One printed piece.  A signal is printed as its C text in parentheses. */
  datatype Tok =
    | LParen | RParen | Bang | Quest | Colon | BarBar | Bar | Amp
    | Cmp(op: CmpOp) | Lit(text: string) | Sig(text: string)

  datatype CExpr =
    | CLit(text: string)
    | CSig(text: string)
    | CNot(e: CExpr)
    | CBin(op: Tok, l: CExpr, r: CExpr)
    | CCond(c: CExpr, t: CExpr, e: CExpr)

  // ---------- Values ----------

  /** Comparison of 64-bit words as signed numbers. */
  function Compares(op: CmpOp, x: Word, y: Word): bool {
    var less := x ^ 0x8000_0000_0000_0000 < y ^ 0x8000_0000_0000_0000;
    match op
    case Eq => x == y
    case Ne => x != y
    case Lt => less
    case Le => less || x == y
    case Gt => !less && x != y
    case Ge => !less
  }

  /** The top bit is the sign: a negative word is below all others, and words of one sign are in order. */
  predicate SignedLess(x: Word, y: Word) {
    if x >= 0x8000_0000_0000_0000 then y < 0x8000_0000_0000_0000 || x < y else y < 0x8000_0000_0000_0000 && x < y
  }

  lemma FlippedSign(x: Word, y: Word)
    ensures x ^ 0x8000_0000_0000_0000 < y ^ 0x8000_0000_0000_0000 <==> SignedLess(x, y)
  {
    SignFlips(x);
    SignFlips(y);
  }

  lemma SignFlips(x: Word)
    ensures x >= 0x8000_0000_0000_0000 ==> x ^ 0x8000_0000_0000_0000 == x - 0x8000_0000_0000_0000
    ensures x < 0x8000_0000_0000_0000 ==> x ^ 0x8000_0000_0000_0000 == x + 0x8000_0000_0000_0000
  {
  }

  lemma ComparesSigned(x: Word, y: Word)
    ensures Compares(Eq, x, y) <==> x == y
    ensures Compares(Ne, x, y) <==> x != y
    ensures Compares(Lt, x, y) <==> SignedLess(x, y)
    ensures Compares(Le, x, y) <==> SignedLess(x, y) || x == y
    ensures Compares(Gt, x, y) <==> !SignedLess(x, y) && x != y
    ensures Compares(Ge, x, y) <==> !SignedLess(x, y)
  {
    FlippedSign(x, y);
    hide SignedLess;
  }

  function AndWord(x: Word, y: Word): Word { x & y }
  function OrWord(x: Word, y: Word): Word { x | y }

  predicate IsOdd(x: Word) { x & 1 == 1 }

  lemma OddWords(x: Word, y: Word)
    ensures IsOdd(x) && IsOdd(y) ==> IsOdd(AndWord(x, y))
    ensures IsOdd(x) || IsOdd(y) ==> IsOdd(OrWord(x, y))
    ensures IsOdd(x) ==> x != 0
  {
  }

  lemma ZeroAndOne(x: Word)
    ensures AndWord(x, 0) == 0 == AndWord(0, x) && OrWord(x, 0) == x == OrWord(0, x)
    ensures AndWord(1, 1) == 1 == OrWord(1, 1) && IsOdd(1) && !IsOdd(0)
    ensures !IsOdd(x) ==> AndWord(x, 1) == 0
  {
  }

  function Bit(b: bool): Word { if b then 1 else 0 }

  function Digit(c: char): nat { if '0' <= c <= '9' then (c as int) - ('0' as int) else 0 }

  function Number(digits: string, base: nat): nat {
    if |digits| == 0 then 0
    else Number(digits[..|digits| - 1], base) * base + Digit(digits[|digits| - 1])
  }

  function ToWord(n: int): Word { (n % 0x1_0000_0000_0000_0000) as Word }

  /** atoll: the number in decimal. */
  function Atoll(text: string): int {
    if |text| > 0 && text[0] == '-' then 0 - Number(text[1..], 10) else Number(text, 10)
  }

  /** A C literal: digits after a leading zero are octal. */
  function CRead(text: string): int {
    var digits := if |text| > 0 && text[0] == '-' then text[1..] else text;
    var n := Number(digits, if |digits| > 1 && digits[0] == '0' then 8 else 10);
    if |text| > 0 && text[0] == '-' then 0 - n else n
  }

  lemma NumberGrows(digits: string, c: char, base: nat)
    ensures Number(digits + [c], base) == Number(digits, base) * base + Digit(c) && Number("", base) == 0
  {
    assert (digits + [c])[..|digits|] == digits;
  }

  /** How atoll and C read a numeral with a last digit, with a sign, and with a leading zero. */
  lemma NumeralsAreRead(digits: string, c: char)
    requires '0' <= c <= '9' && forall i | 0 <= i < |digits| :: '0' <= digits[i] <= '9'
    ensures Digit(c) == (c as int) - 48
    ensures Atoll(digits + [c]) == Atoll(digits) * 10 + Digit(c) && Atoll("") == 0
    ensures Atoll("-" + digits) == -Atoll(digits) && CRead("-" + digits) == -CRead(digits)
    ensures digits == "" || digits[0] != '0' ==> CRead(digits) == Atoll(digits)
    ensures digits == "0" ==> CRead(digits + [c]) == Digit(c)
    ensures |digits| > 1 && digits[0] == '0' ==> CRead(digits + [c]) == CRead(digits) * 8 + Digit(c)
  {
    NumberGrows(digits, c, 10);
    NumberGrows(digits, c, 8);
    assert ("-" + digits)[1..] == digits;
    if digits == "0" { assert Number("0", 8) == Number("", 8) * 8 + Digit('0'); }
  }

  function Value(e: CExpr, sig: string -> Word): Word {
    match e
    case CLit(text) => ToWord(CRead(text))
    case CSig(text) => sig(text)
    case CNot(x) => Bit(Value(x, sig) == 0)
    case CCond(c, t, f) => if Value(c, sig) != 0 then Value(t, sig) else Value(f, sig)
    case CBin(op, l, r) =>
      var x, y := Value(l, sig), Value(r, sig);
      match op
      case BarBar => Bit(x != 0 || y != 0)
      case Bar => OrWord(x, y)
      case Amp => AndWord(x, y)
      case Cmp(c) => Bit(Compares(c, x, y))
      case _ => 0
  }

  // ---------- Reading: lowest precedence first ----------

  datatype Parsed = Fail | Done(e: CExpr, rest: seq<Tok>)

  const UNARY := 5

  /** The precedence level of a binary operator; anything else binds no two operands. */
  function Prec(t: Tok): nat {
    match t
    case BarBar => 0
    case Bar => 1
    case Amp => 2
    case Cmp(op) => if op == Eq || op == Ne then 3 else 4
    case _ => UNARY
  }

  /** Or binds least, then bitwise or, bitwise and, equality and order. */
  lemma PrecedenceIsC(op: CmpOp)
    ensures Prec(BarBar) < Prec(Bar) < Prec(Amp) < Prec(Cmp(Eq)) == Prec(Cmp(Ne))
    ensures op != Eq && op != Ne ==> Prec(Cmp(Ne)) < Prec(Cmp(op)) == Prec(Cmp(Lt)) < UNARY
  {
  }

  function Cond(s: seq<Tok>): (p: Parsed)
    ensures p.Done? ==> |p.rest| < |s|
    decreases |s|, 9
  {
    match Binary(0, s)
    case Fail => Fail
    case Done(c, rest) =>
      if |rest| == 0 || rest[0] != Quest then Done(c, rest)
      else
        match Cond(rest[1..])
        case Fail => Fail
        case Done(t, after) =>
          if |after| == 0 || after[0] != Colon then Fail
          else
            match Cond(after[1..])
            case Fail => Fail
            case Done(f, end) => Done(CCond(c, t, f), end)
  }

  function Binary(level: nat, s: seq<Tok>): (p: Parsed)
    requires level <= UNARY
    ensures p.Done? ==> |p.rest| < |s|
    decreases |s|, 8 - level
  {
    if level == UNARY then Unary(s)
    else
      match Binary(level + 1, s)
      case Fail => Fail
      case Done(l, rest) => Tail(level, l, rest)
  }

  /** Operators of one level group to the left. */
  function Tail(level: nat, l: CExpr, s: seq<Tok>): (p: Parsed)
    requires level < UNARY
    ensures p.Done? ==> |p.rest| <= |s|
    decreases |s|, 9
  {
    if |s| == 0 || Prec(s[0]) != level then Done(l, s)
    else
      match Binary(level + 1, s[1..])
      case Fail => Fail
      case Done(r, rest) => Tail(level, CBin(s[0], l, r), rest)
  }

  function Unary(s: seq<Tok>): (p: Parsed)
    ensures p.Done? ==> |p.rest| < |s|
    decreases |s|, 2
  {
    if |s| == 0 then Fail
    else
      match s[0]
      case Lit(text) => Done(CLit(text), s[1..])
      case Sig(text) => Done(CSig(text), s[1..])
      case Bang =>
        (match Unary(s[1..])
         case Fail => Fail
         case Done(e, rest) => Done(CNot(e), rest))
      case LParen =>
        (match Cond(s[1..])
         case Fail => Fail
         case Done(e, rest) => if |rest| > 0 && rest[0] == RParen then Done(e, rest[1..]) else Fail)
      case _ => Fail
  }

  /** What follows ends an operand of this level and of all higher ones. */
  predicate Stops(level: nat, s: seq<Tok>) {
    |s| == 0 || Prec(s[0]) < level || Prec(s[0]) == UNARY
  }

  // ---------- Texts that read as one expression, and texts that do not ----------

  /** A reading, None if there is none, with what comes behind it. */
  function Want(r: Option<CExpr>, rest: seq<Tok>): Parsed {
    if r.Some? then Done(r.value, rest) else Fail
  }

  function Both(l: Option<CExpr>, op: Tok, r: Option<CExpr>): Option<CExpr> {
    if l.Some? && r.Some? then Some(CBin(op, l.value, r.value)) else None
  }

  function Three(c: Option<CExpr>, t: Option<CExpr>, f: Option<CExpr>): Option<CExpr> {
    if c.Some? && t.Some? && f.Some? then Some(CCond(c.value, t.value, f.value)) else None
  }

  /** A level that finds no operator of its own reads what the higher levels read. */
  lemma {:induction false} Lower(low: nat, high: nat, s: seq<Tok>, r: Option<CExpr>, rest: seq<Tok>)
    requires low <= high <= UNARY && Binary(high, s) == Want(r, rest) && Stops(low, rest)
    ensures Binary(low, s) == Want(r, rest)
    decreases high - low
  {
    if low < high { Lower(low + 1, high, s, r, rest); }
  }

  lemma FirstOperand(level: nat, s: seq<Tok>, l: Option<CExpr>, rest: seq<Tok>)
    requires level < UNARY && Binary(level + 1, s) == Want(l, rest)
    ensures Binary(level, s) == if l.Some? then Tail(level, l.value, rest) else Fail
  {
  }

  lemma TailEnds(level: nat, l: CExpr, s: seq<Tok>)
    requires level < UNARY && (|s| == 0 || Prec(s[0]) != level)
    ensures Tail(level, l, s) == Done(l, s)
  {
  }

  lemma TailGoesOn(level: nat, l: CExpr, op: Tok, s: seq<Tok>, r: Option<CExpr>, rest: seq<Tok>)
    requires level == Prec(op) < UNARY && Binary(level + 1, s) == Want(r, rest)
    ensures Tail(level, l, [op] + s) == if r.Some? then Tail(level, CBin(op, l, r.value), rest) else Fail
  {
    assert ([op] + s)[1..] == s;
  }

  lemma LitReads(text: string, rest: seq<Tok>)
    ensures Unary([Lit(text)] + rest) == Done(CLit(text), rest)
  {
    assert ([Lit(text)] + rest)[1..] == rest;
  }

  lemma SigReads(text: string, rest: seq<Tok>)
    ensures Unary([Sig(text)] + rest) == Done(CSig(text), rest)
  {
    assert ([Sig(text)] + rest)[1..] == rest;
  }

  lemma NotReads(s: seq<Tok>, r: Option<CExpr>, rest: seq<Tok>)
    requires Unary(s) == Want(r, rest)
    ensures Unary([Bang] + s) == Want(if r.Some? then Some(CNot(r.value)) else None, rest)
  {
    assert ([Bang] + s)[1..] == s;
  }

  /** Two unary expressions and an operator between them. */
  lemma PairReads(low: nat, op: Tok, u: seq<Tok>, w: seq<Tok>, x: Option<CExpr>, y: Option<CExpr>, rest: seq<Tok>)
    requires low <= Prec(op) < UNARY && Stops(low, rest)
    requires Unary(u + ([op] + w)) == Want(x, [op] + w) && Unary(w) == Want(y, rest)
    ensures Binary(low, u + ([op] + w)) == Want(Both(x, op, y), rest)
  {
    UnaryIsTop(u + ([op] + w));
    UnaryIsTop(w);
    hide Binary, Unary, Tail;
    var p := Prec(op);
    Lower(p + 1, UNARY, u + ([op] + w), x, [op] + w);
    Lower(p + 1, UNARY, w, y, rest);
    FirstOperand(p, u + ([op] + w), x, [op] + w);
    if x.Some? {
      TailGoesOn(p, x.value, op, w, y, rest);
      if y.Some? { TailEnds(p, CBin(op, x.value, y.value), rest); }
    }
    Lower(low, p, u + ([op] + w), Both(x, op, y), rest);
  }

  /** Parentheses make a unary expression of what is between them, whatever follows. */
  lemma ParenReads(s: seq<Tok>, r: Option<CExpr>, rest: seq<Tok>)
    requires Cond(s) == Want(r, [RParen] + rest)
    ensures Unary([LParen] + s) == Want(r, rest)
  {
    hide Cond;
    assert ([LParen] + s)[1..] == s && ([RParen] + rest)[1..] == rest;
  }

  lemma UnaryIsTop(s: seq<Tok>)
    ensures Binary(UNARY, s) == Unary(s)
  {
  }

  lemma CondIsBinary(s: seq<Tok>, r: Option<CExpr>, rest: seq<Tok>)
    requires Binary(0, s) == Want(r, rest) && (|rest| == 0 || rest[0] != Quest)
    ensures Cond(s) == Want(r, rest)
  {
    hide Binary;
  }

  lemma OperandReads(s: seq<Tok>, r: Option<CExpr>, rest: seq<Tok>)
    requires Unary(s) == Want(r, rest) && (|rest| == 0 || rest[0] == RParen || rest[0] == Colon)
    ensures Cond(s) == Want(r, rest)
  {
    hide Cond, Binary, Unary, Tail;
    UnaryIsTop(s);
    Lower(0, UNARY, s, r, rest);
    CondIsBinary(s, r, rest);
  }

  lemma CondReads(s: seq<Tok>, c: Option<CExpr>, then_: seq<Tok>, t: Option<CExpr>, else_: seq<Tok>, f: Option<CExpr>, rest: seq<Tok>)
    requires Unary(s) == Want(c, [Quest] + then_) && Cond(then_) == Want(t, [Colon] + else_) && Cond(else_) == Want(f, rest)
    ensures Cond(s) == Want(Three(c, t, f), rest)
  {
    hide Binary, Unary, Tail;
    UnaryIsTop(s);
    Lower(0, UNARY, s, c, [Quest] + then_);
    assert ([Quest] + then_)[1..] == then_ && ([Colon] + else_)[1..] == else_;
  }

  /** Nothing starts with an operator or a closing parenthesis. */
  lemma NoOperand(s: seq<Tok>)
    requires |s| > 0 && (s[0] == Quest || s[0] == Colon || s[0] == RParen)
    ensures Unary(s) == Fail
  {
  }

  // ---------- Numerals ----------

  lemma {:induction false} OctalIsSmaller(digits: string)
    ensures Number(digits, 8) <= Number(digits, 10)
    ensures Number(digits, 8) == Number(digits, 10) <==> |digits| == 0 || Number(digits[..|digits| - 1], 10) == 0
  {
    if |digits| > 0 {
      OctalIsSmaller(digits[..|digits| - 1]);
    }
  }

  /** C reads a numeral as HCL wrote it, unless a leading zero is followed by more than one digit that counts. */
  lemma NumeralReadsSameIff(text: string)
    ensures var digits := if |text| > 0 && text[0] == '-' then text[1..] else text;
      CRead(text) == Atoll(text) <==>
      !(|digits| > 1 && digits[0] == '0') || Number(digits[..|digits| - 1], 10) == 0
  {
    var digits := if |text| > 0 && text[0] == '-' then text[1..] else text;
    OctalIsSmaller(digits);
  }
}

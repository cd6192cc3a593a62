/**
  The characters that are printed, with line breaks before some tokens, and a lexer that finds the
  tokens again wherever the lines were broken.  The C text of a signal stays as it is.
 */
module HclLex {
  import opened CText
  import opened Options

  function SpellOp(op: CmpOp): string {
    match op
    case Eq => "==" case Ne => "!=" case Lt => "<" case Le => "<=" case Gt => ">" case Ge => ">="
  }

  /** The characters that are printed for a token. */
  function Spell(t: Tok): string {
    match t
    case LParen => "("
    case RParen => ")"
    case Bang => "!"
    case Quest => " ? "
    case Colon => " : "
    case BarBar => " || "
    case Bar => " | "
    case Amp => " & "
    case Cmp(op) => " " + SpellOp(op) + " "
    case Lit(text) => text
    case Sig(text) => "(" + text + ")"
  }

  function Spaces(n: nat): (s: string)
    ensures |s| == n
  {
    if n == 0 then "" else Spaces(n - 1) + " "
  }

  /** A printed token, and the line break before it if there is one.  A direct one does not go through the line wrapper. */
  datatype Piece = Piece(broken: bool, indent: nat, direct: bool, tok: Tok)

  function Layout(ps: seq<Piece>): string {
    if |ps| == 0 then ""
    else
      var p := ps[|ps| - 1];
      Layout(ps[..|ps| - 1]) + (if p.broken then "\n" + Spaces(p.indent) else "") + Spell(p.tok)
  }

  function Tokens(ps: seq<Piece>): (ts: seq<Tok>)
    ensures |ts| == |ps|
  {
    if |ps| == 0 then [] else Tokens(ps[..|ps| - 1]) + [ps[|ps| - 1].tok]
  }

  lemma LastPiece(ps: seq<Piece>, p: Piece)
    ensures Layout(ps + [p]) == Layout(ps) + (if p.broken then "\n" + Spaces(p.indent) else "") + Spell(p.tok)
    ensures Tokens(ps + [p]) == Tokens(ps) + [p.tok]
  {
    assert (ps + [p])[..|ps|] == ps;
  }

  // ---------- Characters back to tokens ----------

  predicate IsDigit(c: char) { '0' <= c <= '9' }

  predicate IsLetter(c: char) { 'a' <= c <= 'z' || 'A' <= c <= 'Z' || c == '_' }

  predicate IsBlank(c: char) { c == ' ' || c == '\n' }

  /** The end of the digits from i on. */
  function EndOfDigits(s: string, i: nat): (k: nat)
    requires i <= |s|
    ensures i <= k <= |s| && (forall x | i <= x < k :: IsDigit(s[x])) && (k < |s| ==> !IsDigit(s[k]))
    decreases |s| - i
  {
    if i == |s| || !IsDigit(s[i]) then i else EndOfDigits(s, i + 1)
  }

  /** The first closing parenthesis from i on. */
  function Closing(s: string, i: nat): (k: nat)
    requires i <= |s|
    ensures i <= k <= |s| && (forall x | i <= x < k :: s[x] != ')') && (k < |s| ==> s[k] == ')')
    decreases |s| - i
  {
    if i == |s| || s[i] == ')' then i else Closing(s, i + 1)
  }

  /** The token at the beginning, and how many characters it takes. */
  function First(s: string): (r: Option<(Tok, nat)>)
    requires |s| > 0
    ensures r.Some? ==> 0 < r.value.1 <= |s|
  {
    var next := if |s| > 1 then s[1] else ' ';
    match s[0]
    case '(' =>
      if !IsLetter(next) then Some((LParen, 1))
      else
        var k := Closing(s, 1);
        if k < |s| then Some((Sig(s[1..k]), k + 1)) else None
    case ')' => Some((RParen, 1))
    case '?' => Some((Quest, 1))
    case ':' => Some((Colon, 1))
    case '&' => Some((Amp, 1))
    case '|' => if next == '|' then Some((BarBar, 2)) else Some((Bar, 1))
    case '!' => if next == '=' then Some((Cmp(Ne), 2)) else Some((Bang, 1))
    case '=' => if next == '=' then Some((Cmp(Eq), 2)) else None
    case '<' => if next == '=' then Some((Cmp(Le), 2)) else Some((Cmp(Lt), 1))
    case '>' => if next == '=' then Some((Cmp(Ge), 2)) else Some((Cmp(Gt), 1))
    case c =>
      var k := EndOfDigits(s, 1);
      if IsDigit(c) || (c == '-' && k > 1) then Some((Lit(s[..k]), k)) else None
  }

  function Lex(s: string): Option<seq<Tok>>
    decreases |s|
  {
    if |s| == 0 then Some([])
    else if IsBlank(s[0]) then Lex(s[1..])
    else
      match First(s)
      case None => None
      case Some((t, n)) =>
        match Lex(s[n..])
        case None => None
        case Some(ts) => Some([t] + ts)
  }

  /** The bounds of digits and letters, and the operators of two characters at the end of a text. */
  lemma CharactersAreRead()
    ensures IsDigit('0') && IsDigit('9') && !IsDigit('/') && !IsDigit(':')
    ensures IsLetter('a') && IsLetter('z') && IsLetter('A') && IsLetter('Z') && IsLetter('_')
    ensures !IsLetter('`') && !IsLetter('{') && !IsLetter('@') && !IsLetter('[')
    ensures First("||") == Some((BarBar, 2)) && First("!=") == Some((Cmp(Ne), 2)) && First("==") == Some((Cmp(Eq), 2))
    ensures First("<=") == Some((Cmp(Le), 2)) && First(">=") == Some((Cmp(Ge), 2))
    ensures First("|") == Some((Bar, 1)) && First("!") == Some((Bang, 1)) && First("=") == None
    ensures First("<") == Some((Cmp(Lt), 1)) && First(">") == Some((Cmp(Gt), 1)) && First("-") == None
  {
  }

  predicate IsNumeral(text: string) {
    && |text| > 0 && (IsDigit(text[0]) || (text[0] == '-' && |text| > 1))
    && forall x | 0 < x < |text| :: IsDigit(text[x])
  }

  /** A signal's C text that starts with a name and has no parenthesis to close. */
  predicate IsName(text: string) {
    |text| > 0 && IsLetter(text[0]) && forall x | 0 <= x < |text| :: text[x] != ')'
  }

  /** What sensible texts are. */
  lemma SensibleTexts()
    ensures IsNumeral("0") && IsNumeral("-5") && IsNumeral("10") && !IsNumeral("") && !IsNumeral("-") && !IsNumeral("1a") && !IsNumeral("a")
    ensures IsName("a") && IsName("id_ex_curr->icode") && IsName("f(x") && !IsName("") && !IsName("1") && !IsName("a)") && !IsName("(a")
  {
    assert IsNumeral("0") && IsNumeral("10") && IsNumeral("-5");
    assert !IsDigit("1a"[1]) && "a)"[1] == ')';
  }

  predicate Spelt(t: Tok) {
    (t.Lit? ==> IsNumeral(t.text)) && (t.Sig? ==> IsName(t.text))
  }

  predicate AllSpelt(ts: seq<Tok>) { forall t | t in ts :: Spelt(t) }

  /** No numeral stands right behind another one. */
  predicate NoNumeralPair(ts: seq<Tok>) {
    forall i | 0 <= i < |ts| - 1 :: !(ts[i].Lit? && ts[i + 1].Lit?)
  }

  lemma NoPairJoined(a: seq<Tok>, t: Tok, b: seq<Tok>)
    requires NoNumeralPair(a) && NoNumeralPair(b) && !t.Lit?
    ensures NoNumeralPair(a + ([t] + b))
  {
  }

  lemma LexStep(s: string, t: Tok, n: nat)
    requires |s| > 0 && !IsBlank(s[0]) && First(s) == Some((t, n))
    ensures Lex(s) == match Lex(s[n..]) case None => None case Some(ts) => Some([t] + ts)
  {
  }

  lemma LexBlank(s: string)
    requires |s| > 0 && IsBlank(s[0])
    ensures Lex(s) == Lex(s[1..])
  {
  }

  lemma {:induction false} LexSpaces(n: nat, more: string)
    ensures Lex(Spaces(n) + more) == Lex(more)
  {
    if n > 0 {
      assert Spaces(n) + more == Spaces(n - 1) + (" " + more);
      LexSpaces(n - 1, " " + more);
      LexBlank(" " + more);
      assert (" " + more)[1..] == more;
    } else {
      assert Spaces(0) + more == more;
    }
  }

  /** What can stand behind a token: nothing, or the beginning of another one. */
  predicate Begins(more: string) {
    |more| > 0 ==> !IsLetter(more[0]) && more[0] != '='
  }

  /** An operator without the blanks around it. */
  function Core(t: Tok): string {
    match t
    case Quest => "?"
    case Colon => ":"
    case BarBar => "||"
    case Bar => "|"
    case Amp => "&"
    case Cmp(op) => SpellOp(op)
    case _ => ""
  }

  lemma CoreIsFirst(t: Tok, more: string)
    requires Core(t) != ""
    ensures 1 <= |Core(t)| <= 2 && !IsBlank(Core(t)[0]) && Spell(t) == " " + Core(t) + " "
    ensures First(Core(t) + " " + more) == Some((t, |Core(t)|))
  {
    var s := Core(t) + " " + more;
    assert s[0] == Core(t)[0] && s[|Core(t)|] == ' ';
    assert |Core(t)| == 2 ==> s[1] == Core(t)[1];
  }

  lemma SignIsFirst(t: Tok, more: string)
    requires (t == LParen || t == RParen || t == Bang) && Begins(more)
    ensures |Spell(t)| == 1 && !IsBlank(Spell(t)[0]) && First(Spell(t) + more) == Some((t, 1))
  {
    var s := Spell(t) + more;
    assert |more| > 0 ==> s[1] == more[0];
  }

  /** A token is read back from its characters, given what follows cannot be taken for more of it. */
  lemma TokenIsRead(t: Tok, more: string)
    requires Spelt(t) && Begins(more) && (t.Lit? && |more| > 0 ==> !IsDigit(more[0]))
    ensures Lex(Spell(t) + more) == match Lex(more) case None => None case Some(ts) => Some([t] + ts)
  {
    hide Lex, First, Core, SpellOp;
    var s := Spell(t) + more;
    if t == LParen || t == RParen || t == Bang {
      SignIsFirst(t, more);
      LexStep(s, t, 1);
      assert s[1..] == more;
    } else if t.Lit? {
      NumeralIsFirst(t.text, more);
      LexStep(s, t, |t.text|);
      assert s[|t.text|..] == more;
    } else if t.Sig? {
      NameIsFirst(t.text, more);
      LexStep(s, t, |t.text| + 2);
      assert s[|t.text| + 2..] == more;
    } else {
      IsOperator(t);
      CoreIsFirst(t, more);
      Spaced(t, Core(t), more);
    }
  }

  lemma IsOperator(t: Tok)
    ensures Core(t) != "" || t == LParen || t == RParen || t == Bang || t.Lit? || t.Sig?
  {
  }

  /** An operator between blanks. */
  lemma Spaced(t: Tok, op: string, more: string)
    requires Spell(t) == " " + op + " " && 1 <= |op| <= 2 && !IsBlank(op[0])
    requires First(op + " " + more) == Some((t, |op|))
    ensures Lex(Spell(t) + more) == match Lex(more) case None => None case Some(ts) => Some([t] + ts)
  {
    hide Lex, First, Spell;
    var s, u := Spell(t) + more, op + " " + more;
    assert s == " " + u && s[1..] == u;
    LexBlank(s);
    LexStep(u, t, |op|);
    assert u[|op|..] == " " + more;
    LexBlank(" " + more);
    assert (" " + more)[1..] == more;
  }

  lemma NumeralIsFirst(text: string, more: string)
    requires IsNumeral(text) && (|more| > 0 ==> !IsDigit(more[0]))
    ensures First(text + more) == Some((Lit(text), |text|)) && !IsBlank((text + more)[0])
  {
    var s := text + more;
    var k := EndOfDigits(s, 1);
    assert forall x | 1 <= x < |text| :: s[x] == text[x];
    assert |more| > 0 ==> s[|text|] == more[0];
    assert k == |text|;
    assert s[..k] == text;
    assert IsDigit(s[0]) || s[0] == '-';
  }

  lemma NameIsFirst(text: string, more: string)
    requires IsName(text)
    ensures First(Spell(Sig(text)) + more) == Some((Sig(text), |text| + 2))
  {
    var s := Spell(Sig(text)) + more;
    var k := Closing(s, 1);
    assert s[1] == text[0] && s[|text| + 1] == ')';
    assert forall x | 1 <= x <= |text| :: s[x] == text[x - 1];
    assert k == |text| + 1;
    assert s[1..k] == text;
  }

  // ---------- The whole text ----------

  function Shown(p: Piece): string {
    (if p.broken then "\n" + Spaces(p.indent) else "") + Spell(p.tok)
  }

  lemma {:induction false} LayoutFront(ps: seq<Piece>)
    requires |ps| > 0
    ensures Layout(ps) == Shown(ps[0]) + Layout(ps[1..])
    ensures Tokens(ps) == [ps[0].tok] + Tokens(ps[1..])
  {
    hide Layout, Tokens, Spell, Spaces;
    var n := |ps| - 1;
    var first, rest := ps[..n], ps[1..];
    assert ps == first + [ps[n]];
    LastPiece(first, ps[n]);
    NothingLaidOut();
    if n > 0 {
      LayoutFront(first);
      assert rest == first[1..] + [ps[n]];
      LastPiece(first[1..], ps[n]);
    }
  }

  lemma NothingLaidOut()
    ensures Layout([]) == "" && Tokens([]) == []
  {
  }

  lemma ShownBegins(p: Piece, more: string)
    requires Spelt(p.tok)
    ensures Begins(Shown(p) + more) && |Shown(p)| > 0
    ensures !p.tok.Lit? ==> !IsDigit((Shown(p) + more)[0])
  {
  }

  /** Wherever the lines are broken, the lexer finds the tokens that were printed. */
  lemma {:induction false} LayoutIsLexed(ps: seq<Piece>)
    requires AllSpelt(Tokens(ps)) && NoNumeralPair(Tokens(ps))
    ensures Lex(Layout(ps)) == Some(Tokens(ps))
  {
    hide Layout, Tokens, Lex, Spell, Spelt, Begins, Shown;
    NothingLaidOut();
    NothingLexed();
    if |ps| > 0 {
      LayoutFront(ps);
      var p, rest, ts := ps[0], ps[1..], Tokens(ps);
      assert ts == [p.tok] + Tokens(rest) && p.tok in ts;
      FewerTokens(p.tok, Tokens(rest));
      LayoutIsLexed(rest);
      if |rest| > 0 {
        LayoutFront(rest);
        assert rest[0].tok in ts && ts[1] == rest[0].tok;
        ShownBegins(rest[0], Layout(rest[1..]));
      } else {
        assert rest == [];
        NothingBegins();
      }
      PieceIsRead(p, Layout(rest));
    }
  }

  lemma NothingLexed()
    ensures Lex("") == Some([])
  {
  }

  lemma NothingBegins()
    ensures Begins("")
  {
  }

  lemma FewerTokens(t: Tok, ts: seq<Tok>)
    requires AllSpelt([t] + ts) && NoNumeralPair([t] + ts)
    ensures AllSpelt(ts) && NoNumeralPair(ts) && (|ts| > 0 ==> !(t.Lit? && ts[0].Lit?))
  {
    var all := [t] + ts;
    assert forall x | x in ts :: x in all;
    forall i | 0 <= i < |ts| - 1 ensures !(ts[i].Lit? && ts[i + 1].Lit?) { assert all[i + 1] == ts[i] && all[i + 2] == ts[i + 1]; }
    if |ts| > 0 { assert all[0] == t && all[1] == ts[0]; }
  }

  lemma PieceIsRead(p: Piece, more: string)
    requires Spelt(p.tok) && Begins(more) && (p.tok.Lit? && |more| > 0 ==> !IsDigit(more[0]))
    ensures Lex(Shown(p) + more) == match Lex(more) case None => None case Some(ts) => Some([p.tok] + ts)
  {
    hide Lex, Spell, Spelt, Begins, Spaces;
    TokenIsRead(p.tok, more);
    if p.broken {
      var s := Spell(p.tok) + more;
      var u := Spaces(p.indent) + s;
      assert Shown(p) + more == "\n" + u;
      LexBlank("\n" + u);
      LexSpaces(p.indent, s);
      assert ("\n" + u)[1..] == u;
    } else {
      assert Shown(p) + more == Spell(p.tok) + more;
    }
  }
}

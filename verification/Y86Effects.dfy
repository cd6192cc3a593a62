/**
  What instructions do, told by their bytes and without the functions that execute them: bits of
  and and exclusive or, exact sums and flags, signed comparisons, the stack.
 */
module Y86Effects {
  import opened Bytes
  import opened Options
  import opened Powers
  import opened Y86Isa

  // ---------- Bits ----------

  /** Bit k in two's complement, the sign going on for ever. */
  predicate Bit(x: int, k: nat) { (x / Pow2(k)) % 2 == 1 }

  lemma BitOfHalf(x: int, k: nat)
    ensures Bit(x, k + 1) <==> Bit(x / 2, k)
  {
    var h, p := x / 2, Pow2(k);
    var q, r := h / p, h % p;
    assert Pow2(k + 1) == 2 * p && h == p * q + r;
    assert x == (2 * p) * q + (2 * r + x % 2);
    QuotientIs(x, 2 * p, q, 2 * r + x % 2);
  }

  lemma BitZero(x: int)
    ensures Bit(x, 0) <==> x % 2 == 1
  {
    assert Pow2(0) == 1;
  }

  lemma SignBits(k: nat)
    ensures Bit(-1, k) && !Bit(0, k)
  {
    QuotientIs(-1, Pow2(k), -1, Pow2(k) - 1);
    QuotientIs(0, Pow2(k), 0, 0);
  }

  /** A number that n bits and a sign can hold. */
  predicate Fits(x: int, n: nat) { 0 - Pow2(n) <= x < Pow2(n) }

  lemma HalfFits(x: int, n: nat)
    requires n > 0 && Fits(x, n)
    ensures Fits(x / 2, n - 1)
  {
    assert Pow2(n) == 2 * Pow2(n - 1);
  }

  lemma NoBits(x: int)
    ensures Fits(x, 0) <==> x == 0 || x == -1
  {
    assert Pow2(0) == 1;
  }

  lemma {:induction false} AndIsBitwise(a: int, b: int, n: nat, k: nat)
    requires Fits(a, n) && Fits(b, n)
    ensures Bit(AndBits(a, b, n), k) <==> Bit(a, k) && Bit(b, k)
    decreases n
  {
    hide Bit, Fits;
    if n == 0 {
      NoBits(a);
      NoBits(b);
      SignBits(k);
    } else {
      HalfFits(a, n);
      HalfFits(b, n);
      var r := AndBits(a, b, n);
      assert r / 2 == AndBits(a / 2, b / 2, n - 1);
      if k == 0 {
        BitZero(a);
        BitZero(b);
        BitZero(r);
      } else {
        AndIsBitwise(a / 2, b / 2, n - 1, k - 1);
        BitOfHalf(a, k - 1);
        BitOfHalf(b, k - 1);
        BitOfHalf(r, k - 1);
      }
    }
  }

  lemma {:induction false} XorIsBitwise(a: int, b: int, n: nat, k: nat)
    requires Fits(a, n) && Fits(b, n)
    ensures Bit(XorBits(a, b, n), k) <==> Bit(a, k) != Bit(b, k)
    decreases n
  {
    hide Bit, Fits;
    if n == 0 {
      NoBits(a);
      NoBits(b);
      SignBits(k);
    } else {
      HalfFits(a, n);
      HalfFits(b, n);
      var r := XorBits(a, b, n);
      assert r / 2 == XorBits(a / 2, b / 2, n - 1);
      if k == 0 {
        BitZero(a);
        BitZero(b);
        BitZero(r);
      } else {
        XorIsBitwise(a / 2, b / 2, n - 1, k - 1);
        BitOfHalf(a, k - 1);
        BitOfHalf(b, k - 1);
        BitOfHalf(r, k - 1);
      }
    }
  }

  /** Its bits determine a number. */
  lemma {:induction false} SameBitsSameNumber(x: int, y: int, n: nat)
    requires Fits(x, n) && Fits(y, n) && forall k: nat :: k <= n ==> (Bit(x, k) <==> Bit(y, k))
    ensures x == y
    decreases n
  {
    hide Bit, Fits;
    assert Bit(x, 0) <==> Bit(y, 0);
    BitZero(x);
    BitZero(y);
    if n == 0 {
      NoBits(x);
      NoBits(y);
    } else {
      HalfFits(x, n);
      HalfFits(y, n);
      forall k: nat | k <= n - 1 ensures Bit(x / 2, k) <==> Bit(y / 2, k) {
        assert Bit(x, k + 1) <==> Bit(y, k + 1);
        BitOfHalf(x, k);
        BitOfHalf(y, k);
      }
      SameBitsSameNumber(x / 2, y / 2, n - 1);
    }
  }

  lemma WordFits(x: Word)
    ensures Fits(x, 63)
  {
    hide Pow2;
    Pow2Is63();
  }

  // ---------- The arithmetic instructions ----------

  const WORDS: int := 0x1_0000_0000_0000_0000

  /** What addq, subq, andq and xorq of a to b leave, numbered from 0 to 3 like their second half-byte; others leave 0. */
  ghost predicate AluValue(op: int, a: Word, b: Word, v: Word) {
    && (op == 0 ==> (a + b - v) % WORDS == 0)
    && (op == 1 ==> (b - a - v) % WORDS == 0)
    && (op == 2 ==> forall k: nat :: k < 64 ==> (Bit(v, k) <==> Bit(a, k) && Bit(b, k)))
    && (op == 3 ==> forall k: nat :: k < 64 ==> (Bit(v, k) <==> Bit(a, k) != Bit(b, k)))
    && (op > 3 ==> v == 0)
  }

  /** Zero, sign, and whether the exact result of an addition or subtraction is no word. */
  ghost predicate AluFlags(op: int, a: Word, b: Word, v: Word, cc: CC) {
    && (cc.zf <==> v == 0) && (cc.sf <==> v < 0)
    && (op == 0 ==> (cc.of <==> v != a + b)) && (op == 1 ==> (cc.of <==> v != b - a)) && (op > 1 ==> !cc.of)
  }

  /** There is one such value. */
  lemma AluValueIsUnique(op: int, a: Word, b: Word, v: Word, w: Word)
    requires 0 <= op && AluValue(op, a, b, v) && AluValue(op, a, b, w)
    ensures v == w
  {
    hide Bit, Fits;
    if op >= 2 {
      WordFits(v);
      WordFits(w);
      SameBitsSameNumber(v, w, 63);
    } else {
      hide AluValue;
      SameModulo(op, a, b, v, w);
    }
  }

  lemma SameModulo(op: int, a: Word, b: Word, v: Word, w: Word)
    requires 0 <= op <= 1 && AluValue(op, a, b, v) && AluValue(op, a, b, w)
    ensures v == w
  {
    hide Bit;
  }

  lemma AluComputes(op: int, a: Word, b: Word)
    requires 0 <= op < 16
    ensures AluValue(op, a, b, ComputeAlu(op, a, b)) && AluFlags(op, a, b, ComputeAlu(op, a, b), ComputeCc(op, a, b))
  {
    hide Bit, Fits, AndBits, XorBits;
    WordFits(a);
    WordFits(b);
    forall k: nat
      ensures Bit(And(a, b), k) <==> Bit(a, k) && Bit(b, k)
      ensures Bit(Xor(a, b), k) <==> Bit(a, k) != Bit(b, k)
    {
      AndIsBitwise(a, b, 63, k);
      XorIsBitwise(a, b, 63, k);
    }
  }

  /** The value of a register number in an operand byte; 15 stands for none. */
  function Operand(s: State, i: int): Word { if 0 <= i < 15 then s.r[i] else 0 }

  predicate AtAlu(s: State) { 0 <= s.pc && s.pc + 1 < |s.m| && s.m[s.pc] / 16 == 6 }

  /** addq, subq, andq, xorq and the codes after them: one register and the flags change. */
  lemma AluInstruction(s: State) returns (v: Word)
    requires AtAlu(s)
    ensures var op, ra, rb := s.m[s.pc] % 16, s.m[s.pc + 1] / 16, s.m[s.pc + 1] % 16;
      var (t, status) := StepState(s);
      && AluValue(op, Operand(s, ra), Operand(s, rb), v) && AluFlags(op, Operand(s, ra), Operand(s, rb), v, t.cc)
      && t.r == (if rb < 15 then s.r[rb := v] else s.r)
      && t.m == s.m && t.pc == s.pc + 2 && status == Aok
  {
    hide AluValue, AluFlags, ComputeAlu, ComputeCc;
    var op, ra, rb := s.m[s.pc] % 16, s.m[s.pc + 1] / 16, s.m[s.pc + 1] % 16;
    v := ComputeAlu(op, Operand(s, ra), Operand(s, rb));
    AluComputes(op, Operand(s, ra), Operand(s, rb));
  }

  // ---------- Comparisons ----------

  /** The comparisons named le, l, e, ne, ge and g; 0 is always. */
  predicate Compares(cond: int, x: int, y: int) {
    cond == 0 || (cond == 1 && x <= y) || (cond == 2 && x < y) || (cond == 3 && x == y)
    || (cond == 4 && x != y) || (cond == 5 && x >= y) || (cond == 6 && x > y)
  }

  lemma ConditionIsComparison(cond: Nibble, a: Word, b: Word)
    ensures CondHolds(ComputeCc(1, a, b), cond) <==> Compares(cond, b, a)
  {
    ConditionsCompareSigned(a, b);
    hide ComputeCc;
  }

  /** The flags that a machine starts with are those of equal operands. */
  lemma StartFlagsAreEqual(cond: Nibble)
    ensures CondHolds(DEFAULT_CC, cond) <==> Compares(cond, 0, 0)
  {
  }

  /** The first half-byte of the instruction at s is icode, and len bytes are there. */
  predicate AtCode(s: State, icode: int, len: nat) { 0 <= s.pc < |s.m| && s.pc + len <= |s.m| && s.m[s.pc] / 16 == icode }

  /** subq and then a jump: taken exactly if the second operand compares so with the first as signed numbers. */
  lemma CompareAndJump(s: State)
    requires AtAlu(s) && s.m[s.pc] == 0x61 && AtCode(StepState(s).0, 7, 9)
    ensures var a, b, t := Operand(s, s.m[s.pc + 1] / 16), Operand(s, s.m[s.pc + 1] % 16), StepState(s).0;
      var target := GetWordVal(t.m, t.pc + 1).value;
      StepState(t) == (t.(pc := if Compares(t.m[t.pc] % 16, b, a) then target else t.pc + 9), Aok)
  {
    hide GetWordVal, CondHolds, ComputeCc, ComputeAlu, Compares;
    var a, b, t := Operand(s, s.m[s.pc + 1] / 16), Operand(s, s.m[s.pc + 1] % 16), StepState(s).0;
    assert t.cc == ComputeCc(1, a, b);
    ConditionIsComparison(t.m[t.pc] % 16, a, b);
    WordIsThere(t.m, t.pc + 1);
  }

  lemma WordIsThere(m: Mem, pos: Word)
    requires 0 <= pos && pos + 8 <= |m|
    ensures GetWordVal(m, pos).Some?
  {
  }

  /** Eight bytes as a number, the first one lowest. */
  function Digits(m: Mem, pos: Word): int
    requires 0 <= pos && pos + 8 <= |m|
  {
    m[pos] + 0x100 * (m[pos + 1] + 0x100 * (m[pos + 2] + 0x100 * (m[pos + 3] + 0x100 * (
      m[pos + 4] + 0x100 * (m[pos + 5] + 0x100 * (m[pos + 6] + 0x100 * (m[pos + 7] as int)))))))
  }

  lemma WordIsLittleEndian(m: Mem, pos: Word)
    requires 0 <= pos && pos + 8 <= |m|
    ensures GetWordVal(m, pos).Some? && (Digits(m, pos) - GetWordVal(m, pos).value) % WORDS == 0
  {
    hide Signed, LeVal;
    LowByte(m, pos, 8);
    LowByte(m, pos + 1, 7);
    LowByte(m, pos + 2, 6);
    LowByte(m, pos + 3, 5);
    LowByte(m, pos + 4, 4);
    LowByte(m, pos + 5, 3);
    LowByte(m, pos + 6, 2);
    LowByte(m, pos + 7, 1);
    NoBytes(m[pos + 8..pos + 8]);
    SignedIsCongruent(Digits(m, pos));
  }

  lemma LowByte(m: Mem, pos: int, n: nat)
    requires n > 0 && 0 <= pos && pos + n <= |m|
    ensures LeVal(m[pos..pos + n]) == m[pos] + 0x100 * LeVal(m[pos + 1..pos + n])
  {
    assert m[pos..pos + n][1..] == m[pos + 1..pos + n];
  }

  lemma NoBytes(s: seq<Byte>)
    requires s == []
    ensures LeVal(s) == 0
  {
  }

  lemma SignedIsCongruent(x: int)
    ensures (x - Signed(x)) % WORDS == 0
  {
  }

  // ---------- The other instructions ----------

  /** halt and nop, and bytes that are no instruction. */
  lemma WithoutOperands(s: State)
    requires 0 <= s.pc < |s.m|
    ensures s.m[s.pc] / 16 == 0 ==> StepState(s) == (s, Hlt)
    ensures s.m[s.pc] / 16 == 1 ==> StepState(s) == (s.(pc := s.pc + 1), Aok)
    ensures s.m[s.pc] / 16 > 12 ==> StepState(s) == (s, Ins)
  {
    hide GetWordVal;
  }

  /** The length of an instruction as far as its constant, and where the constant stands. */
  predicate HasOperands(icode: int) { icode in {2, 3, 4, 5, 6, 10, 11, 12} }
  predicate HasConstant(icode: int) { icode in {3, 4, 5, 7, 8, 12} }

  function ConstantAt(s: State): int
    requires 0 <= s.pc < |s.m|
  {
    s.pc + if HasOperands(s.m[s.pc] / 16) then 2 else 1
  }

  /** A register that the instruction needs is number 15, which is none. */
  predicate LacksRegister(icode: int, operands: int) {
    (icode in {2, 4, 5, 10, 11} && operands / 16 == 15) || (icode in {2, 3, 12} && operands % 16 == 15)
  }

  /** Instructions that are not all there, or name no register, leave everything as it was; the statuses differ. */
  lemma IncompleteInstruction(s: State)
    ensures !(0 <= s.pc < |s.m|) ==> StepState(s) == (s, Adr)
    ensures 0 <= s.pc < |s.m| ==>
      var icode := s.m[s.pc] / 16;
      && (HasOperands(icode) && s.pc + 1 >= |s.m| ==> StepState(s) == (s, Adr))
      && (!(HasOperands(icode) && s.pc + 1 >= |s.m|) && HasConstant(icode) && ConstantAt(s) + 8 > |s.m| ==>
            StepState(s) == (s, if icode == 7 || icode == 8 then Adr else Ins))
      && (HasOperands(icode) && s.pc + 1 < |s.m| && LacksRegister(icode, s.m[s.pc + 1]) ==> StepState(s) == (s, Ins))
  {
    hide Signed, SetWordVal;
  }

  /** A stack address outside memory: call and pushq have moved rsp by then. */
  lemma PushOutside(s: State)
    requires 0 <= s.pc && s.pc + 10 <= |s.m| && !(8 <= s.r[4] <= |s.m|) && s.r[4] >= 8 - 0x8000_0000_0000_0000
    requires s.m[s.pc] / 16 == 8 || (s.m[s.pc] / 16 == 10 && s.m[s.pc + 1] / 16 < 15)
    ensures StepState(s) == (s.(r := s.r[4 := s.r[4] - 8]), Adr)
  {
    WordIsThere(s.m, s.pc + 1);
    hide GetWordVal;
  }

  /** So has popq, but not ret. */
  lemma PopOutside(s: State)
    requires 0 <= s.pc && s.pc + 10 <= |s.m| && !(0 <= s.r[4] <= |s.m| - 8) && s.r[4] < 0x8000_0000_0000_0000 - 8
    ensures s.m[s.pc] / 16 == 11 && s.m[s.pc + 1] / 16 < 15 ==> StepState(s) == (s.(r := s.r[4 := s.r[4] + 8]), Adr)
    ensures s.m[s.pc] / 16 == 9 ==> StepState(s) == (s, Adr)
  {
    hide Signed, SetWordVal;
  }

  /** An address of rmmovq or mrmovq outside memory changes nothing. */
  lemma DataOutside(s: State, addr: Word)
    requires 0 <= s.pc && s.pc + 10 <= |s.m| && s.m[s.pc] / 16 in {4, 5} && s.m[s.pc + 1] / 16 < 15
    requires AddressIs(s, addr) && !(0 <= addr && addr + 8 <= |s.m|)
    ensures StepState(s) == (s, Adr)
  {
    WordIsThere(s.m, s.pc + 2);
    AddressIsAdded(s, addr);
    hide Signed, AddressIs;
  }

  /** irmovq and iaddq take the constant that stands behind the operand byte. */
  lemma ConstantInstruction(s: State)
    requires 0 <= s.pc && s.pc + 10 <= |s.m| && (s.m[s.pc] / 16 == 3 || s.m[s.pc] / 16 == 12) && s.m[s.pc + 1] % 16 < 15
    ensures var rb, v := s.m[s.pc + 1] % 16, GetWordVal(s.m, s.pc + 2).value;
      var (t, status) := StepState(s);
      && t.m == s.m && t.pc == s.pc + 10 && status == Aok
      && (s.m[s.pc] / 16 == 3 ==> t.cc == s.cc && t.r == s.r[rb := v])
      && (s.m[s.pc] / 16 == 12 ==>
            && t.r == s.r[rb := t.r[rb]] && AluValue(0, v, s.r[rb], t.r[rb]) && AluFlags(0, v, s.r[rb], t.r[rb], t.cc))
  {
    hide GetWordVal, Bit, AndBits, XorBits;
    WordIsThere(s.m, s.pc + 2);
    AluComputes(0, GetWordVal(s.m, s.pc + 2).value, s.r[s.m[s.pc + 1] % 16]);
  }

  /** The address of rmmovq and mrmovq: the constant, and the base register if there is one. */
  predicate AddressIs(s: State, addr: Word)
    requires 0 <= s.pc && s.pc + 10 <= |s.m|
  {
    (GetWordVal(s.m, s.pc + 2).value + Operand(s, s.m[s.pc + 1] % 16) - addr) % WORDS == 0
  }

  /** A store and then a load of the same address move one register into another. */
  lemma StoreLoadMoves(s: State, addr: Word)
    requires 0 <= s.pc && s.pc + 20 <= |s.m| && s.m[s.pc] / 16 == 4 && s.m[s.pc + 10] / 16 == 5
    requires s.m[s.pc + 1] / 16 < 15 && s.m[s.pc + 11] / 16 < 15
    requires AddressIs(s, addr) && AddressIs(s.(pc := s.pc + 10), addr) && 0 <= addr && addr + 8 <= |s.m|
    requires addr + 8 <= s.pc + 10 || s.pc + 20 <= addr
    ensures var ra, rb := s.m[s.pc + 1] / 16, s.m[s.pc + 11] / 16;
      var (t, stored) := StepState(s); var (u, loaded) := StepState(t);
      && stored == loaded == Aok && t.r == s.r
      && u.pc == s.pc + 20 && u.r == s.r[rb := s.r[ra]] && u.cc == s.cc
      && |u.m| == |s.m| && forall k | 0 <= k < |s.m| && !(addr <= k < addr + 8) :: u.m[k] == s.m[k]
  {
    hide GetWordVal, SetWordVal, AddressIs;
    var ra := s.m[s.pc + 1] / 16;
    AddressIsAdded(s, addr);
    RoomForWord(s.m, addr, s.r[ra]);
    StoredWordIsReadBack(s.m, addr, s.r[ra]);
    WordIsThere(s.m, s.pc + 2);
    Stores(s, addr);
    var t := StepState(s).0;
    assert t == s.(m := SetWordVal(s.m, addr, s.r[ra]).value, pc := s.pc + 10);
    SameWord(s.m, t.m, s.pc + 12);
    AddressIsAdded(s.(pc := s.pc + 10), addr);
    Loads(t, addr);
  }

  lemma NoBase(v: Word)
    ensures Add(v, 0) == v
  {
  }

  lemma Stores(s: State, addr: Word)
    requires 0 <= s.pc && s.pc + 10 <= |s.m| && s.m[s.pc] / 16 == 4 && s.m[s.pc + 1] / 16 < 15
    requires addr == Add(GetWordVal(s.m, s.pc + 2).value, Operand(s, s.m[s.pc + 1] % 16)) && 0 <= addr && addr + 8 <= |s.m|
    ensures SetWordVal(s.m, addr, s.r[s.m[s.pc + 1] / 16]).Some?
    ensures StepState(s) == (s.(m := SetWordVal(s.m, addr, s.r[s.m[s.pc + 1] / 16]).value, pc := s.pc + 10), Aok)
  {
    hide GetWordVal, SetWordVal, Add;
    RoomForWord(s.m, addr, s.r[s.m[s.pc + 1] / 16]);
    WordIsThere(s.m, s.pc + 2);
    assert s.m[s.pc + 1] % 16 == 15 ==> addr == GetWordVal(s.m, s.pc + 2).value by { NoBase(GetWordVal(s.m, s.pc + 2).value); }
  }

  lemma Loads(s: State, addr: Word)
    requires 0 <= s.pc && s.pc + 10 <= |s.m| && s.m[s.pc] / 16 == 5 && s.m[s.pc + 1] / 16 < 15
    requires addr == Add(GetWordVal(s.m, s.pc + 2).value, Operand(s, s.m[s.pc + 1] % 16)) && 0 <= addr && addr + 8 <= |s.m|
    ensures GetWordVal(s.m, addr).Some?
    ensures StepState(s) == (s.(r := s.r[s.m[s.pc + 1] / 16 := GetWordVal(s.m, addr).value], pc := s.pc + 10), Aok)
  {
    hide GetWordVal, Add;
    WordIsThere(s.m, addr);
    WordIsThere(s.m, s.pc + 2);
    assert s.m[s.pc + 1] % 16 == 15 ==> addr == GetWordVal(s.m, s.pc + 2).value by { NoBase(GetWordVal(s.m, s.pc + 2).value); }
  }

  lemma AddressIsAdded(s: State, addr: Word)
    requires 0 <= s.pc && s.pc + 10 <= |s.m| && AddressIs(s, addr)
    ensures addr == Add(GetWordVal(s.m, s.pc + 2).value, Operand(s, s.m[s.pc + 1] % 16))
  {
    hide GetWordVal;
  }

  lemma SameWord(m: Mem, m': Mem, pos: Word)
    requires 0 <= pos && pos + 8 <= |m| && |m'| == |m| && forall k | pos <= k < pos + 8 :: m'[k] == m[k]
    ensures GetWordVal(m', pos) == GetWordVal(m, pos)
  {
    assert m'[pos..pos + 8] == m[pos..pos + 8];
  }

  /** subq and then a conditional move: done exactly under the same comparison. */
  lemma CompareAndMove(s: State)
    requires AtAlu(s) && s.m[s.pc] == 0x61 && AtCode(StepState(s).0, 2, 2)
    requires var t := StepState(s).0; t.m[t.pc + 1] / 16 < 15 && t.m[t.pc + 1] % 16 < 15
    ensures var a, b, t := Operand(s, s.m[s.pc + 1] / 16), Operand(s, s.m[s.pc + 1] % 16), StepState(s).0;
      var rc, rd := t.m[t.pc + 1] / 16, t.m[t.pc + 1] % 16;
      StepState(t) == (t.(pc := t.pc + 2, r := if Compares(t.m[t.pc] % 16, b, a) then t.r[rd := t.r[rc]] else t.r), Aok)
  {
    hide GetWordVal, CondHolds, ComputeCc, ComputeAlu, Compares;
    var a, b, t := Operand(s, s.m[s.pc + 1] / 16), Operand(s, s.m[s.pc + 1] % 16), StepState(s).0;
    assert t.cc == ComputeCc(1, a, b);
    ConditionIsComparison(t.m[t.pc] % 16, a, b);
  }

  /** Whatever the flags are, an unconditional jump is taken and an unconditional move is done. */
  lemma UnconditionalIsAlways(s: State)
    requires 0 <= s.pc
    ensures s.pc + 9 <= |s.m| && s.m[s.pc] == 0x70 ==> StepState(s) == (s.(pc := GetWordVal(s.m, s.pc + 1).value), Aok)
    ensures s.pc + 2 <= |s.m| && s.m[s.pc] == 0x20 && s.m[s.pc + 1] / 16 < 15 && s.m[s.pc + 1] % 16 < 15 ==>
      StepState(s) == (s.(pc := s.pc + 2, r := s.r[s.m[s.pc + 1] % 16 := s.r[s.m[s.pc + 1] / 16]]), Aok)
  {
    hide GetWordVal;
    if s.pc + 9 <= |s.m| { WordIsThere(s.m, s.pc + 1); }
  }

  // ---------- The stack ----------

  /** The eight bytes below rsp are in memory and none of the given ones. */
  predicate Pushable(s: State, code: int, n: nat) {
    && 8 <= s.r[4] && s.r[4] <= |s.m| && 0 <= code && code + n <= |s.m|
    && (code + n <= s.r[4] - 8 || s.r[4] <= code)
  }

  /** Memory outside the eight bytes below rsp is as it was. */
  predicate OnlyPushed(s: State, t: State) {
    |t.m| == |s.m| && forall k | 0 <= k < |s.m| && !(s.r[4] - 8 <= k < s.r[4]) :: t.m[k] == s.m[k]
  }

  /** call of a place where a ret stands comes back behind the call, with all registers and flags as they were. */
  lemma CallReturns(s: State, target: Word)
    requires 0 <= s.pc && s.pc + 9 <= |s.m| && s.m[s.pc] == 0x80 && GetWordVal(s.m, s.pc + 1) == Some(target)
    requires Pushable(s, target, 1) && s.m[target] == 0x90
    ensures var (t, called) := StepState(s); var (u, returned) := StepState(t);
      && called == returned == Aok && t.pc == target && t.r == s.r[4 := s.r[4] - 8]
      && u.pc == s.pc + 9 && u.r == s.r && u.cc == s.cc && u.m == t.m && OnlyPushed(s, u)
  {
    hide GetWordVal, SetWordVal;
    var rsp := s.r[4];
    assert SetWordVal(s.m, rsp - 8, s.pc + 9).Some? by { RoomForWord(s.m, rsp - 8, s.pc + 9); }
    StoredWordIsReadBack(s.m, rsp - 8, s.pc + 9);
    var t := StepState(s).0;
    assert t == s.(r := s.r[4 := rsp - 8], m := SetWordVal(s.m, rsp - 8, s.pc + 9).value, pc := target);
    assert t.m[target] == 0x90;
    assert t.r[4 := rsp] == s.r;
  }

  lemma RoomForWord(m: Mem, pos: Word, v: Word)
    requires 0 <= pos && pos + 8 <= |m|
    ensures SetWordVal(m, pos, v).Some?
  {
  }

  /** pushq and popq move one register into another and leave rsp where it was. */
  lemma PushPopMoves(s: State)
    requires 0 <= s.pc && s.pc + 4 <= |s.m| && s.m[s.pc] == 0xA0 && s.m[s.pc + 2] == 0xB0
    requires s.m[s.pc + 1] / 16 < 15 && s.m[s.pc + 3] / 16 < 15 && Pushable(s, s.pc, 4)
    ensures var ra, rb := s.m[s.pc + 1] / 16, s.m[s.pc + 3] / 16;
      var (t, pushed) := StepState(s); var (u, popped) := StepState(t);
      && pushed == popped == Aok && t.r == s.r[4 := s.r[4] - 8]
      && u.pc == s.pc + 4 && u.r == s.r[rb := s.r[ra]] && u.cc == s.cc && OnlyPushed(s, u)
  {
    hide GetWordVal, SetWordVal;
    var ra, rsp := s.m[s.pc + 1] / 16, s.r[4];
    Pushes(s);
    StoredWordIsReadBack(s.m, rsp - 8, s.r[ra]);
    var t := StepState(s).0;
    assert t.m[s.pc + 2] == 0xB0 && t.m[s.pc + 3] == s.m[s.pc + 3];
    Pops(t, s.r[ra]);
    assert t.r[4 := rsp] == s.r;
  }

  lemma Pushes(s: State)
    requires 0 <= s.pc && s.pc + 2 <= |s.m| && s.m[s.pc] == 0xA0 && s.m[s.pc + 1] / 16 < 15 && Pushable(s, 0, 0)
    ensures var ra := s.m[s.pc + 1] / 16;
      && SetWordVal(s.m, s.r[4] - 8, s.r[ra]).Some?
      && StepState(s) == (s.(r := s.r[4 := s.r[4] - 8], m := SetWordVal(s.m, s.r[4] - 8, s.r[ra]).value, pc := s.pc + 2), Aok)
  {
    RoomForWord(s.m, s.r[4] - 8, s.r[s.m[s.pc + 1] / 16]);
    hide SetWordVal;
  }

  lemma Pops(s: State, v: Word)
    requires 0 <= s.pc && s.pc + 2 <= |s.m| && s.m[s.pc] == 0xB0 && s.m[s.pc + 1] / 16 < 15
    requires 0 <= s.r[4] && s.r[4] + 8 <= |s.m| && GetWordVal(s.m, s.r[4]) == Some(v)
    ensures StepState(s) == (s.(r := s.r[4 := s.r[4] + 8][s.m[s.pc + 1] / 16 := v], pc := s.pc + 2), Aok)
  {
    hide GetWordVal;
  }
}

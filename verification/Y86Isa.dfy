/**
  The Y86-64 instruction set as isa.c executes it: byte memory, register file,
  ALU, condition codes and the single-instruction step.

  Words are the signed 64-bit integers of word_t; every sum or difference goes
  through Wrap.  A memory is a sequence of bytes (mem_rec.len is a 32-bit int).
 */
module Y86Isa {
  import opened Bytes
  import opened Options
  import opened Powers

  type Nibble = n: int | 0 <= n < 16
  type Word = w: int | -0x8000_0000_0000_0000 <= w < 0x8000_0000_0000_0000
  type Mem = m: seq<Byte> | |m| < 0x8000_0000
  type Regs = r: seq<Word> | |r| == 15 witness seq(15, _ => 0)

  datatype CC = CC(zf: bool, sf: bool, of: bool)
  datatype Stat = Bub | Aok | Hlt | Adr | Ins | Pip

  const DEFAULT_CC := CC(true, false, false)

  const REG_RSP: Nibble := 4
  const REG_NONE: Nibble := 15

  const I_HALT: Nibble := 0
  const I_NOP: Nibble := 1
  const I_RRMOVQ: Nibble := 2
  const I_IRMOVQ: Nibble := 3
  const I_RMMOVQ: Nibble := 4
  const I_MRMOVQ: Nibble := 5
  const I_ALU: Nibble := 6
  const I_JMP: Nibble := 7
  const I_CALL: Nibble := 8
  const I_RET: Nibble := 9
  const I_PUSHQ: Nibble := 10
  const I_POPQ: Nibble := 11
  const I_IADDQ: Nibble := 12

  const A_ADD: Nibble := 0
  const A_SUB: Nibble := 1
  const A_AND: Nibble := 2
  const A_XOR: Nibble := 3

  const C_YES: Nibble := 0
  const C_LE: Nibble := 1
  const C_L: Nibble := 2
  const C_E: Nibble := 3
  const C_NE: Nibble := 4
  const C_GE: Nibble := 5
  const C_G: Nibble := 6

  const F_NONE: Nibble := 0

  function Hi4(b: Byte): Nibble { b / 16 }
  function Lo4(b: Byte): Nibble { b % 16 }

  // ---------- Word arithmetic ----------

  /** Two's complement reduction of a sum or difference of two words. */
  function Wrap(x: int): Word
    requires -0x1_0000_0000_0000_0000 <= x < 0x1_0000_0000_0000_0000
  {
    if x >= 0x8000_0000_0000_0000 then x - 0x1_0000_0000_0000_0000
    else if x < -0x8000_0000_0000_0000 then x + 0x1_0000_0000_0000_0000
    else x
  }

  function Add(a: Word, b: Word): Word { Wrap(a + b) }
  function Sub(a: Word, b: Word): Word { Wrap(a - b) }

  lemma Pow2Plus8(n: nat)
    ensures Pow2(n + 8) == 256 * Pow2(n)
  {
    assert Pow2(n + 3) == 2 * Pow2(n + 2) == 4 * Pow2(n + 1);
    assert Pow2(n + 6) == 2 * Pow2(n + 5) == 4 * Pow2(n + 4);
  }

  /** Bitwise operation on the n low bits, the sign deciding all higher bits. */
  function AndBits(a: int, b: int, n: nat): (r: int)
    ensures 0 - Pow2(n) <= r < Pow2(n)
    decreases n
  {
    if n == 0 then (if a < 0 && b < 0 then -1 else 0)
    else 2 * AndBits(a / 2, b / 2, n - 1) + (if a % 2 == 1 && b % 2 == 1 then 1 else 0)
  }

  function XorBits(a: int, b: int, n: nat): (r: int)
    ensures 0 - Pow2(n) <= r < Pow2(n)
    decreases n
  {
    if n == 0 then (if (a < 0) != (b < 0) then -1 else 0)
    else 2 * XorBits(a / 2, b / 2, n - 1) + (if a % 2 != b % 2 then 1 else 0)
  }

  lemma Pow2Is64()
    ensures Pow2(64) == 0x1_0000_0000_0000_0000
  {
    Pow2Plus8(0); Pow2Plus8(8); Pow2Plus8(16); Pow2Plus8(24);
    Pow2Plus8(32); Pow2Plus8(40); Pow2Plus8(48); Pow2Plus8(56);
  }

  lemma Pow2Is63()
    ensures Pow2(63) == 0x8000_0000_0000_0000
  {
    Pow2Is64();
    assert Pow2(64) == 2 * Pow2(63);
  }

  function And(a: Word, b: Word): Word { Pow2Is63(); AndBits(a, b, 63) }
  function Xor(a: Word, b: Word): Word { Pow2Is63(); XorBits(a, b, 63) }

  function ComputeAlu(op: Nibble, argA: Word, argB: Word): Word {
    if op == A_ADD then Add(argA, argB)
    else if op == A_SUB then Sub(argB, argA)
    else if op == A_AND then And(argA, argB)
    else if op == A_XOR then Xor(argA, argB)
    else 0
  }

  function ComputeCc(op: Nibble, argA: Word, argB: Word): CC {
    var val := ComputeAlu(op, argA, argB);
    CC(val == 0, val < 0,
       if op == A_ADD then (argA < 0) == (argB < 0) && (val < 0) != (argA < 0)
       else if op == A_SUB then (argA > 0) == (argB < 0) && (val < 0) != (argB < 0)
       else false)
  }

  function CondHolds(cc: CC, cond: Nibble): bool {
    if cond == C_YES then true
    else if cond == C_LE then (cc.sf != cc.of) || cc.zf
    else if cond == C_L then cc.sf != cc.of
    else if cond == C_E then cc.zf
    else if cond == C_NE then !cc.zf
    else if cond == C_GE then cc.sf == cc.of
    else if cond == C_G then cc.sf == cc.of && !cc.zf
    else false
  }

  /** The overflow flag is set exactly when the exact result does not fit a word. */
  lemma OverflowFlagIsExact(a: Word, b: Word)
    ensures ComputeCc(A_ADD, a, b).of <==> ComputeAlu(A_ADD, a, b) != a + b
    ensures ComputeCc(A_SUB, a, b).of <==> ComputeAlu(A_SUB, a, b) != b - a
  {
  }

  /** After `subq a, b` the conditions compare b with a as signed integers, overflow or not. */
  lemma ConditionsCompareSigned(a: Word, b: Word)
    ensures CondHolds(ComputeCc(A_SUB, a, b), C_LE) <==> b <= a
    ensures CondHolds(ComputeCc(A_SUB, a, b), C_L) <==> b < a
    ensures CondHolds(ComputeCc(A_SUB, a, b), C_E) <==> b == a
    ensures CondHolds(ComputeCc(A_SUB, a, b), C_NE) <==> b != a
    ensures CondHolds(ComputeCc(A_SUB, a, b), C_GE) <==> b >= a
    ensures CondHolds(ComputeCc(A_SUB, a, b), C_G) <==> b > a
  {
  }

  // ---------- Memory ----------

  function GetByteVal(m: Mem, pos: Word): Option<Byte> {
    if pos < 0 || pos >= |m| then None else Some(m[pos])
  }

  /** A 64-bit pattern read as a signed word. */
  function Signed(u: int): Word {
    var x := u % 0x1_0000_0000_0000_0000;
    if x >= 0x8000_0000_0000_0000 then x - 0x1_0000_0000_0000_0000 else x
  }

  function GetWordVal(m: Mem, pos: Word): Option<Word> {
    if pos < 0 || pos + 8 > |m| then None else Some(Signed(LeVal(m[pos..pos + 8])))
  }

  function SetWordVal(m: Mem, pos: Word, val: Word): Option<Mem> {
    if pos < 0 || pos + 8 > |m| then None
    else Some(m[..pos] + LeBytes(val, 8) + m[pos + 8..])
  }

  /** Writing v as n bytes keeps v modulo 256^n. */
  lemma {:induction false} LeValOfBytes(v: int, n: nat) returns (q: int)
    ensures v == LeVal(LeBytes(v, n)) + q * Pow2(8 * n)
    ensures LeVal(LeBytes(v, n)) < Pow2(8 * n)
    decreases n
  {
    if n == 0 {
      q := v;
    } else {
      q := LeValOfBytes(v / 256, n - 1);
      assert LeBytes(v, n)[1..] == LeBytes(v / 256, n - 1);
      Pow2Plus8(8 * (n - 1));
      hide Pow2, LeBytes;
      var p := Pow2(8 * (n - 1));
      assert q * (256 * p) == 256 * (q * p);
    }
  }

  lemma SignedOfBytes(val: Word)
    ensures Signed(LeVal(LeBytes(val, 8))) == val
  {
    hide LeVal, LeBytes, Pow2;
    var q := LeValOfBytes(val, 8);
    assert Pow2(64) == 0x1_0000_0000_0000_0000 by { Pow2Is64(); }
    assert val == LeVal(LeBytes(val, 8)) + q * 0x1_0000_0000_0000_0000;
  }

  /** A word that was stored is read back, and bytes outside the eight stored ones are unchanged. */
  lemma StoredWordIsReadBack(m: Mem, pos: Word, val: Word)
    requires SetWordVal(m, pos, val).Some?
    ensures GetWordVal(SetWordVal(m, pos, val).value, pos) == Some(val)
    ensures |SetWordVal(m, pos, val).value| == |m|
    ensures forall k :: 0 <= k < |m| && !(pos <= k < pos + 8) ==> SetWordVal(m, pos, val).value[k] == m[k]
  {
    hide LeVal, LeBytes, Signed;
    var m' := SetWordVal(m, pos, val).value;
    assert m'[pos..pos + 8] == LeBytes(val, 8);
    SignedOfBytes(val);
  }

  // ---------- Register file ----------

  function GetReg(r: Regs, id: Nibble): Word { if id >= REG_NONE then 0 else r[id] }
  function SetReg(r: Regs, id: Nibble, val: Word): Regs { if id >= REG_NONE then r else r[id := val] }

  // ---------- One instruction ----------

  datatype State = State(pc: Word, r: Regs, m: Mem, cc: CC)

  predicate NeedRegids(icode: Nibble) {
    icode == I_RRMOVQ || icode == I_ALU || icode == I_PUSHQ || icode == I_POPQ ||
    icode == I_IRMOVQ || icode == I_RMMOVQ || icode == I_MRMOVQ || icode == I_IADDQ
  }

  predicate NeedImm(icode: Nibble) {
    icode == I_IRMOVQ || icode == I_RMMOVQ || icode == I_MRMOVQ ||
    icode == I_JMP || icode == I_CALL || icode == I_IADDQ
  }

  /**
    step_state: execute the instruction at s.pc.  As in the source, an instruction that
    fails may already have changed the stack pointer.
   */
  function StepState(s: State): (State, Stat) {
    match GetByteVal(s.m, s.pc)
    case None => (s, Adr)
    case Some(byte0) =>
      var hi0, lo0 := Hi4(byte0), Lo4(byte0);
      var regByte := if NeedRegids(hi0) then GetByteVal(s.m, s.pc + 1) else Some(0xFF);
      var ok1 := regByte.Some?;
      var byte1 := if ok1 then regByte.value else 0;
      var hi1, lo1 := Hi4(byte1), Lo4(byte1);
      var ipos := s.pc + 1 + (if NeedRegids(hi0) then 1 else 0);
      var imm := if NeedImm(hi0) then GetWordVal(s.m, ipos) else Some(0);
      var okc := imm.Some?;
      var cval := if okc then imm.value else 0;
      var ftpc := ipos + (if NeedImm(hi0) then 8 else 0);
      Execute(s, hi0, lo0, ok1, hi1, lo1, okc, cval, ftpc)
  }

  function Execute(s: State, hi0: Nibble, lo0: Nibble, ok1: bool, hi1: Nibble, lo1: Nibble,
                   okc: bool, cval: Word, ftpc: Word): (State, Stat)
  {
    if hi0 == I_NOP then (s.(pc := ftpc), Aok)
    else if hi0 == I_HALT then (s, Hlt)
    else if hi0 == I_RRMOVQ then
      if !ok1 then (s, Adr)
      else if hi1 >= REG_NONE || lo1 >= REG_NONE then (s, Ins)
      else
        var val := GetReg(s.r, hi1);
        (s.(r := if CondHolds(s.cc, lo0) then SetReg(s.r, lo1, val) else s.r, pc := ftpc), Aok)
    else if hi0 == I_IRMOVQ then
      if !ok1 then (s, Adr)
      else if !okc || lo1 >= REG_NONE then (s, Ins)
      else (s.(r := SetReg(s.r, lo1, cval), pc := ftpc), Aok)
    else if hi0 == I_RMMOVQ then
      if !ok1 then (s, Adr)
      else if !okc || hi1 >= REG_NONE then (s, Ins)
      else
        var addr := if lo1 < REG_NONE then Add(cval, GetReg(s.r, lo1)) else cval;
        match SetWordVal(s.m, addr, GetReg(s.r, hi1))
        case None => (s, Adr)
        case Some(m') => (s.(m := m', pc := ftpc), Aok)
    else if hi0 == I_MRMOVQ then
      if !ok1 then (s, Adr)
      else if !okc || hi1 >= REG_NONE then (s, Ins)
      else
        var addr := if lo1 < REG_NONE then Add(cval, GetReg(s.r, lo1)) else cval;
        match GetWordVal(s.m, addr)
        case None => (s, Adr)
        case Some(val) => (s.(r := SetReg(s.r, hi1, val), pc := ftpc), Aok)
    else if hi0 == I_ALU then
      if !ok1 then (s, Adr)
      else
        var argA, argB := GetReg(s.r, hi1), GetReg(s.r, lo1);
        (s.(r := SetReg(s.r, lo1, ComputeAlu(lo0, argA, argB)), cc := ComputeCc(lo0, argA, argB), pc := ftpc), Aok)
    else if hi0 == I_JMP then
      if !ok1 || !okc then (s, Adr)
      else (s.(pc := if CondHolds(s.cc, lo0) then cval else ftpc), Aok)
    else if hi0 == I_CALL then
      if !ok1 || !okc then (s, Adr)
      else
        var val := Sub(GetReg(s.r, REG_RSP), 8);
        var s' := s.(r := SetReg(s.r, REG_RSP, val));
        match SetWordVal(s.m, val, ftpc)
        case None => (s', Adr)
        case Some(m') => (s'.(m := m', pc := cval), Aok)
    else if hi0 == I_RET then
      var dval := GetReg(s.r, REG_RSP);
      match GetWordVal(s.m, dval)
      case None => (s, Adr)
      case Some(val) => (s.(r := SetReg(s.r, REG_RSP, Add(dval, 8)), pc := val), Aok)
    else if hi0 == I_PUSHQ then
      if !ok1 then (s, Adr)
      else if hi1 >= REG_NONE then (s, Ins)
      else
        var val := GetReg(s.r, hi1);
        var dval := Sub(GetReg(s.r, REG_RSP), 8);
        var s' := s.(r := SetReg(s.r, REG_RSP, dval));
        match SetWordVal(s.m, dval, val)
        case None => (s', Adr)
        case Some(m') => (s'.(m := m', pc := ftpc), Aok)
    else if hi0 == I_POPQ then
      if !ok1 then (s, Adr)
      else if hi1 >= REG_NONE then (s, Ins)
      else
        var dval := GetReg(s.r, REG_RSP);
        var s' := s.(r := SetReg(s.r, REG_RSP, Add(dval, 8)));
        match GetWordVal(s.m, dval)
        case None => (s', Adr)
        case Some(val) => (s'.(r := SetReg(s'.r, hi1, val), pc := ftpc), Aok)
    else if hi0 == I_IADDQ then
      if !ok1 then (s, Adr)
      else if !okc || lo1 >= REG_NONE then (s, Ins)
      else
        var argB := GetReg(s.r, lo1);
        (s.(r := SetReg(s.r, lo1, Add(argB, cval)), cc := ComputeCc(A_ADD, cval, argB), pc := ftpc), Aok)
    else (s, Ins)
  }
}

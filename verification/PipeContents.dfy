/**
  What each pipeline register holds for an instruction that executes in ISA state s, and
  the fact that the unpipelined composition of the stages is exactly step_state.
 */
module PipeContents {
  import opened Options
  import opened Y86Isa
  import opened PipeStd
  import opened PipeMachine
  import opened PipeSchedule

  // ---------- Ideal contents ----------

  function DOf(s: State): IfId { FetchAt(s.m, s.pc) }

  function EOf(s: State): IdEx {
    var d := DOf(s);
    IdEx(d.icode, d.ifun, d.valC,
         if d.icode == I_CALL || d.icode == I_JMP then d.valP else GetReg(s.r, GenDSrcA(d)),
         GetReg(s.r, GenDSrcB(d)),
         GenDSrcA(d), GenDSrcB(d), GenDDstE(d), GenDDstM(d), d.status, d.stagePc)
  }

  function MOf(s: State): ExMem { ExStage(EOf(s), s.cc) }
  function WOf(s: State): MemWb { MemStage(MOf(s), s.m) }

  predicate IsHalt(s: State) { DOf(s).icode == I_HALT }
  predicate IsRet(s: State) { DOf(s).icode == I_RET }
  predicate IsMispredicted(s: State) { DOf(s).icode == I_JMP && !CondHolds(s.cc, DOf(s).ifun) }

  function After(s: State): State { StepState(s).0 }

  /**
    The instructions for which pipe-std is meant to follow the ISA: step_state executes them
    without a fault, all of pc..pc+5 is inside memory (the fetch stage probes pc+5), the
    opcode is not iaddq, register operands exist and a memory operand has a base register.
   */
  predicate Supported(s: State) {
    var d := DOf(s);
    && 0 <= s.pc && s.pc + 5 < |s.m|
    && StepState(s).1 in {Aok, Hlt}
    && d.icode != I_IADDQ
    && (d.icode == I_ALU ==> d.ra < REG_NONE && d.rb < REG_NONE)
    && (d.icode == I_RMMOVQ || d.icode == I_MRMOVQ ==> d.rb < REG_NONE)
  }

  /** Where the constant of the instruction at s starts, and whether it can be read. */
  predicate ImmediateOk(s: State, d: IfId)
    requires 0 <= s.pc && s.pc + 5 < |s.m|
  {
    NeedImm(d.icode) ==> GetWordVal(s.m, s.pc + 1 + (if NeedRegids(d.icode) then 1 else 0)).Some?
  }

  lemma FetchMatchesDecode(s: State)
    requires 0 <= s.pc && s.pc + 5 < |s.m| && DOf(s).icode != I_IADDQ
    ensures var d := DOf(s);
      StepState(s) == Execute(s, d.icode, d.ifun, true, d.ra, d.rb, ImmediateOk(s, d), d.valC, d.valP)
    ensures DOf(s).status == GenFStat(false, GenInstrValid(DOf(s).icode), DOf(s).icode)
  {
    hide Execute, GetWordVal;
  }

  /** Fetch extracts what step_state decodes. */
  lemma FetchIsIsaDecode(s: State)
    requires Supported(s)
    ensures var d := DOf(s);
      && GenInstrValid(d.icode)
      && d.status == (if IsHalt(s) then Hlt else Aok)
      && (d.icode in {I_RRMOVQ, I_RMMOVQ, I_ALU, I_PUSHQ, I_POPQ, I_MRMOVQ} ==> d.ra < REG_NONE)
      && (d.icode in {I_RRMOVQ, I_IRMOVQ, I_ALU} ==> d.rb < REG_NONE)
      && StepState(s) == Execute(s, d.icode, d.ifun, true, d.ra, d.rb, true, d.valC, d.valP)
  {
    hide FetchAt, StepState, GetWordVal, SetWordVal, ComputeAlu, ComputeCc, CondHolds, GetReg, SetReg, Add, Sub;
    FetchMatchesDecode(s);
  }

  /** The address the fetch unit must reach after the instruction at s. */
  function NextPc(s: State): Word {
    if IsMispredicted(s) then MOf(s).valA
    else if IsRet(s) then WOf(s).valM
    else GenFPredPc(DOf(s))
  }

  lemma StagesWriteRegisters(s: State)
    requires Supported(s)
    ensures After(s).r == WriteBack(s.r, WOf(s))
  {
    hide StepState, FetchAt, And, Xor, ComputeCc, CondHolds;
    FetchIsIsaDecode(s);
  }

  lemma StagesStatus(s: State)
    requires Supported(s)
    ensures WOf(s).status == (if IsHalt(s) then Hlt else Aok)
  {
    hide StepState, FetchAt, And, Xor, ComputeCc, CondHolds, SetReg;
    FetchIsIsaDecode(s);
  }

  lemma StagesWriteMemory(s: State)
    requires Supported(s)
    ensures After(s).m == MemWrite(s.m, MOf(s))
    ensures After(s).cc == (if DOf(s).icode == I_ALU then ExCc(EOf(s)) else s.cc)
  {
    hide StepState, FetchAt, And, Xor, ComputeCc, CondHolds, SetReg;
    FetchIsIsaDecode(s);
  }

  lemma StagesContinue(s: State)
    requires Supported(s)
    ensures !IsHalt(s) ==> After(s).pc == NextPc(s)
    ensures IsHalt(s) ==> After(s) == s
  {
    hide StepState, FetchAt, And, Xor, ComputeCc, CondHolds, SetReg;
    FetchIsIsaDecode(s);
  }

  /** Running one instruction alone through all five stages is one step_state. */
  lemma StagesImplementStep(s: State)
    requires Supported(s)
    ensures After(s).r == WriteBack(s.r, WOf(s))
    ensures After(s).m == MemWrite(s.m, MOf(s))
    ensures After(s).cc == (if DOf(s).icode == I_ALU then ExCc(EOf(s)) else s.cc)
    ensures !IsHalt(s) ==> After(s).pc == NextPc(s)
    ensures IsHalt(s) ==> After(s) == s
    ensures WOf(s).status == (if IsHalt(s) then Hlt else Aok)
  {
    hide StepState, FetchAt, WOf, MOf, EOf, After, NextPc, WriteBack, MemWrite;
    StagesWriteRegisters(s);
    StagesStatus(s);
    StagesWriteMemory(s);
    StagesContinue(s);
  }

  // ---------- Registers that hold an instruction, up to operands it does not read ----------

  predicate ReadsA(e: IdEx) { e.srcA != REG_NONE || e.icode == I_CALL || e.icode == I_JMP }

  predicate HoldsE(e: IdEx, s: State) {
    && e == EOf(s).(valA := e.valA, valB := e.valB)
    && (ReadsA(EOf(s)) ==> e.valA == EOf(s).valA)
    && (EOf(s).srcB != REG_NONE ==> e.valB == EOf(s).valB)
  }

  predicate HoldsM(m: ExMem, s: State) {
    && m == MOf(s).(valA := m.valA)
    && (ReadsA(EOf(s)) ==> m.valA == MOf(s).valA)
  }

  predicate IdleD(d: IfId) { d.icode == I_NOP && d.status == Bub }
  predicate IdleE(e: IdEx) { e.icode == I_NOP && e.dstE == e.dstM == REG_NONE && e.status == Bub }
  predicate IdleM(m: ExMem) { m.icode == I_NOP && m.dstE == m.dstM == REG_NONE && m.status == Bub }
  predicate IdleW(w: MemWb) { w.icode == I_NOP && w.dstE == w.dstM == REG_NONE && w.status == Bub }

  lemma ExecuteHolds(e: IdEx, s: State)
    requires Supported(s) && HoldsE(e, s)
    ensures HoldsM(ExStage(e, s.cc), s)
    ensures e.icode == I_ALU ==> ExCc(e) == ExCc(EOf(s))
  {
    FetchIsIsaDecode(s);
  }

  lemma MemoryHolds(m: ExMem, s: State)
    requires Supported(s) && HoldsM(m, s)
    ensures MemStage(m, s.m) == WOf(s)
    ensures MemWrite(s.m, m) == After(s).m
  {
    FetchIsIsaDecode(s);
    StagesImplementStep(s);
  }

  // ---------- Forwarding ----------

  /** How the ISA state moves across a stage: one step if the stage holds the next instruction. */
  predicate Moves(slot: Slot, s: State, s': State) {
    if slot == Right then Supported(s) && s' == After(s) else s' == s
  }

  /** A source register as seen after the instruction of one stage. */
  lemma RegisterAfter(s: State, src: Nibble)
    requires Supported(s) && src < REG_NONE
    ensures GetReg(After(s).r, src) ==
      (if src == WOf(s).dstM then WOf(s).valM
       else if src == WOf(s).dstE then WOf(s).valE
       else GetReg(s.r, src))
  {
    StagesImplementStep(s);
  }

  /**
    The forwarding network yields the value the source register has once every older
    instruction is complete.
   */
  lemma ForwardIsCurrent(src: Nibble, c: Clocked, ew: Slot, em: Slot, ee: Slot,
                         sa: State, sb: State, sc: State, sd: State)
    requires src < REG_NONE
    requires ew != Wrong && em != Wrong && ee != Wrong
    requires Moves(ew, sa, sb) && Moves(em, sb, sc) && Moves(ee, sc, sd)
    requires c.reg == sa.r && c.mem == sb.m && c.cc == sc.cc
    requires if ew == Right then c.w == WOf(sa) else IdleW(c.w)
    requires if em == Right then HoldsM(c.m, sb) else IdleM(c.m)
    requires if ee == Right then HoldsE(c.e, sc) else IdleE(c.e)
    requires ee == Right && (c.e.icode == I_MRMOVQ || c.e.icode == I_POPQ) ==> c.e.dstM != src
    ensures Forward(src, MNext(c), c.m, WNext(c), c.w, GetReg(c.reg, src)) == GetReg(sd.r, src)
  {
    if ew == Right { RegisterAfter(sa, src); }
    if em == Right { RegisterAfter(sb, src); MemoryHolds(c.m, sb); }
    if ee == Right { RegisterAfter(sc, src); ExecuteHolds(c.e, sc); FetchIsIsaDecode(sc); }
  }
}

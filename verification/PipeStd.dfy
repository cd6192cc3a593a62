/**
  The pipeline registers of stages.h and the control logic of pipe-std.c: one
  conditional expression per signal, a function of the pipeline registers it reads.
 */
module PipeStd {
  import opened Y86Isa

  // ---------- Pipeline registers ----------

  datatype Pc = Pc(pc: Word, status: Stat)

  datatype IfId = IfId(icode: Nibble, ifun: Nibble, ra: Nibble, rb: Nibble,
                       valC: Word, valP: Word, status: Stat, stagePc: Word)

  datatype IdEx = IdEx(icode: Nibble, ifun: Nibble, valC: Word, valA: Word, valB: Word,
                       srcA: Nibble, srcB: Nibble, dstE: Nibble, dstM: Nibble,
                       status: Stat, stagePc: Word)

  datatype ExMem = ExMem(icode: Nibble, ifun: Nibble, takeBranch: bool, valE: Word, valA: Word,
                         dstE: Nibble, dstM: Nibble, srcA: Nibble, status: Stat, stagePc: Word)

  datatype MemWb = MemWb(icode: Nibble, ifun: Nibble, valE: Word, valM: Word,
                         dstE: Nibble, dstM: Nibble, status: Stat, stagePc: Word)

  const BUBBLE_PC := Pc(0, Aok)
  const BUBBLE_IF_ID := IfId(I_NOP, 0, REG_NONE, REG_NONE, 0, 0, Bub, 0)
  const BUBBLE_ID_EX := IdEx(I_NOP, 0, 0, 0, 0, REG_NONE, REG_NONE, REG_NONE, REG_NONE, Bub, 0)
  const BUBBLE_EX_MEM := ExMem(I_NOP, 0, false, 0, 0, REG_NONE, REG_NONE, 0, Bub, 0)
  const BUBBLE_MEM_WB := MemWb(I_NOP, 0, 0, 0, REG_NONE, REG_NONE, Bub, 0)

  // ---------- Fetch ----------

  function GenFPc(f: Pc, m: ExMem, w: MemWb): Word {
    if m.icode == I_JMP && !m.takeBranch then m.valA
    else if w.icode == I_RET then w.valM
    else f.pc
  }

  function GenFIcode(imemError: bool, imemIcode: Nibble): Nibble { if imemError then I_NOP else imemIcode }
  function GenFIfun(imemError: bool, imemIfun: Nibble): Nibble { if imemError then F_NONE else imemIfun }

  predicate GenInstrValid(icode: Nibble) {
    icode == I_NOP || icode == I_HALT || icode == I_RRMOVQ || icode == I_IRMOVQ || icode == I_RMMOVQ ||
    icode == I_MRMOVQ || icode == I_ALU || icode == I_JMP || icode == I_CALL || icode == I_RET ||
    icode == I_PUSHQ || icode == I_POPQ
  }

  function GenFStat(imemError: bool, instrValid: bool, icode: Nibble): Stat {
    if imemError then Adr else if !instrValid then Ins else if icode == I_HALT then Hlt else Aok
  }

  predicate GenNeedRegids(icode: Nibble) {
    icode == I_RRMOVQ || icode == I_ALU || icode == I_PUSHQ || icode == I_POPQ ||
    icode == I_IRMOVQ || icode == I_RMMOVQ || icode == I_MRMOVQ
  }

  predicate GenNeedValC(icode: Nibble) {
    icode == I_IRMOVQ || icode == I_RMMOVQ || icode == I_MRMOVQ || icode == I_JMP || icode == I_CALL
  }

  function GenFPredPc(d: IfId): Word {
    if d.icode == I_JMP || d.icode == I_CALL then d.valC else d.valP
  }

  // ---------- Decode ----------

  function GenDSrcA(d: IfId): Nibble {
    if d.icode == I_RRMOVQ || d.icode == I_RMMOVQ || d.icode == I_ALU || d.icode == I_PUSHQ then d.ra
    else if d.icode == I_POPQ || d.icode == I_RET then REG_RSP
    else REG_NONE
  }

  function GenDSrcB(d: IfId): Nibble {
    if d.icode == I_ALU || d.icode == I_RMMOVQ || d.icode == I_MRMOVQ then d.rb
    else if d.icode == I_PUSHQ || d.icode == I_POPQ || d.icode == I_CALL || d.icode == I_RET then REG_RSP
    else REG_NONE
  }

  function GenDDstE(d: IfId): Nibble {
    if d.icode == I_RRMOVQ || d.icode == I_IRMOVQ || d.icode == I_ALU then d.rb
    else if d.icode == I_PUSHQ || d.icode == I_POPQ || d.icode == I_CALL || d.icode == I_RET then REG_RSP
    else REG_NONE
  }

  function GenDDstM(d: IfId): Nibble {
    if d.icode == I_MRMOVQ || d.icode == I_POPQ then d.ra else REG_NONE
  }

  /** The forwarding network shared by d_valA and d_valB. */
  function Forward(src: Nibble, eNext: ExMem, m: ExMem, mNext: MemWb, w: MemWb, regVal: Word): Word {
    if src == eNext.dstE then eNext.valE
    else if src == m.dstM then mNext.valM
    else if src == m.dstE then m.valE
    else if src == w.dstM then w.valM
    else if src == w.dstE then w.valE
    else regVal
  }

  function GenDValA(d: IfId, srcA: Nibble, eNext: ExMem, m: ExMem, mNext: MemWb, w: MemWb, regValA: Word): Word {
    if d.icode == I_CALL || d.icode == I_JMP then d.valP
    else Forward(srcA, eNext, m, mNext, w, regValA)
  }

  function GenDValB(srcB: Nibble, eNext: ExMem, m: ExMem, mNext: MemWb, w: MemWb, regValB: Word): Word {
    Forward(srcB, eNext, m, mNext, w, regValB)
  }

  // ---------- Execute ----------

  function GenAluA(e: IdEx): Word {
    if e.icode == I_RRMOVQ || e.icode == I_ALU then e.valA
    else if e.icode == I_IRMOVQ || e.icode == I_RMMOVQ || e.icode == I_MRMOVQ then e.valC
    else if e.icode == I_CALL || e.icode == I_PUSHQ then -8
    else if e.icode == I_RET || e.icode == I_POPQ then 8
    else 0
  }

  function GenAluB(e: IdEx): Word {
    if e.icode == I_RMMOVQ || e.icode == I_MRMOVQ || e.icode == I_ALU || e.icode == I_CALL ||
       e.icode == I_PUSHQ || e.icode == I_RET || e.icode == I_POPQ then e.valB
    else 0
  }

  function GenAluFun(e: IdEx): Nibble { if e.icode == I_ALU then e.ifun else A_ADD }

  predicate IsException(s: Stat) { s == Adr || s == Ins || s == Hlt }

  predicate GenSetCc(e: IdEx, mNext: MemWb, w: MemWb) {
    e.icode == I_ALU && !IsException(mNext.status) && !IsException(w.status)
  }

  function GenEDstE(e: IdEx, takeBranch: bool): Nibble {
    if e.icode == I_RRMOVQ && !takeBranch then REG_NONE else e.dstE
  }

  // ---------- Memory ----------

  function GenMemAddr(m: ExMem): Word {
    if m.icode == I_RMMOVQ || m.icode == I_PUSHQ || m.icode == I_CALL || m.icode == I_MRMOVQ then m.valE
    else if m.icode == I_POPQ || m.icode == I_RET then m.valA
    else 0
  }

  predicate GenMemRead(m: ExMem) { m.icode == I_MRMOVQ || m.icode == I_POPQ || m.icode == I_RET }
  predicate GenMemWrite(m: ExMem) { m.icode == I_RMMOVQ || m.icode == I_PUSHQ || m.icode == I_CALL }

  function GenMStat(dmemError: bool, m: ExMem): Stat { if dmemError then Adr else m.status }

  function GenStat(w: MemWb): Stat { if w.status == Bub then Aok else w.status }

  // ---------- Stall and bubble ----------

  predicate LoadUse(e: IdEx, eN: IdEx) {
    (e.icode == I_MRMOVQ || e.icode == I_POPQ) && (e.dstM == eN.srcA || e.dstM == eN.srcB)
  }

  predicate RetPending(d: IfId, e: IdEx, m: ExMem) {
    d.icode == I_RET || e.icode == I_RET || m.icode == I_RET
  }

  predicate Mispredicted(e: IdEx, mN: ExMem) { e.icode == I_JMP && !mN.takeBranch }

  predicate GenFBubble() { false }
  predicate GenFStall(d: IfId, e: IdEx, eN: IdEx, m: ExMem) { LoadUse(e, eN) || RetPending(d, e, m) }

  predicate GenDStall(e: IdEx, eN: IdEx) { LoadUse(e, eN) }
  predicate GenDBubble(d: IfId, e: IdEx, eN: IdEx, m: ExMem, mN: ExMem) {
    Mispredicted(e, mN) || (!LoadUse(e, eN) && RetPending(d, e, m))
  }

  predicate GenEStall() { false }
  predicate GenEBubble(e: IdEx, eN: IdEx, mN: ExMem) { Mispredicted(e, mN) || LoadUse(e, eN) }

  predicate GenMStall() { false }
  predicate GenMBubble(w: MemWb, wN: MemWb) { IsException(wN.status) || IsException(w.status) }

  predicate GenWStall(w: MemWb) { IsException(w.status) }
  predicate GenWBubble() { false }
}

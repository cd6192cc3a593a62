/**
  The combinational stages of psim.c and one clock edge, as functions of the clocked state:
  register file, memory, condition codes and the five pipeline registers.
 */
module PipeMachine {
  import opened Options
  import opened Y86Isa
  import opened PipeStd

  datatype Clocked = Clocked(reg: Regs, mem: Mem, cc: CC,
                             f: Pc, d: IfId, e: IdEx, m: ExMem, w: MemWb)

  // ---------- Stages ----------

  /** do_if_stage: the contents that a fetch at pc puts on the way to the D register. */
  function FetchAt(mem: Mem, pc: Word): IfId {
    var first := GetByteVal(mem, pc);
    var imemError := first.None? || GetByteVal(mem, Add(pc, 5)).None?;
    var instr := if first.Some? then first.value else 0x10;
    var icode := GenFIcode(imemError, Hi4(instr));
    var ifun := GenFIfun(imemError, Lo4(instr));
    var status := GenFStat(imemError, GenInstrValid(icode), icode);
    var pos1 := Add(pc, 1);
    var regByte := if GenNeedRegids(icode) then GetByteVal(mem, pos1) else None;
    var regids := if regByte.Some? then regByte.value else 0xFF;
    var pos2 := if GenNeedRegids(icode) then Add(pos1, 1) else pos1;
    var imm := if GenNeedValC(icode) then GetWordVal(mem, pos2) else None;
    var valC := if imm.Some? then imm.value else 0;
    var valP := if GenNeedValC(icode) then Add(pos2, 8) else pos2;
    IfId(icode, ifun, Hi4(regids), Lo4(regids), valC, valP, status, pc)
  }

  function PcStage(dNext: IfId): Pc {
    Pc(GenFPredPc(dNext), if dNext.status == Aok then Aok else Bub)
  }

  function MemRead(mem: Mem, m: ExMem): Option<Word> {
    if GenMemRead(m) then GetWordVal(mem, GenMemAddr(m)) else Some(0)
  }

  /** do_mem_stage */
  function MemStage(m: ExMem, mem: Mem): MemWb {
    var valM := if MemRead(mem, m).Some? then MemRead(mem, m).value else 0;
    var dmemError := MemRead(mem, m).None? || (GenMemWrite(m) && GetWordVal(mem, GenMemAddr(m)).None?);
    MemWb(m.icode, m.ifun, m.valE, valM, m.dstE, m.dstM, GenMStat(dmemError, m), m.stagePc)
  }

  /**
    A fetch reports an address error if the byte at pc or the one five further is missing, and then bad
    first half-bytes; behind a report comes a bubble.
   */
  lemma FetchReports(mem: Mem, pc: Word)
    ensures var there := 0 <= pc < |mem| && 0 <= Add(pc, 5) < |mem|;
      FetchAt(mem, pc).status ==
        if !there then Adr else if mem[pc] / 16 > 11 then Ins else if mem[pc] / 16 == 0 then Hlt else Aok
    ensures PcStage(FetchAt(mem, pc)).status == Aok || PcStage(FetchAt(mem, pc)).status == Bub
    ensures PcStage(FetchAt(mem, pc)).status == Bub <==> FetchAt(mem, pc).status != Aok
  {
  }

  /** Half-bytes 5, 9 and 11 read memory and 4, 8 and 10 write it; an address outside is the only error that is added. */
  lemma MemoryReports(m: ExMem, mem: Mem)
    ensures var addr := if m.icode == 9 || m.icode == 11 then m.valA else m.valE;
      var loads := m.icode in {5, 9, 11};
      var stores := m.icode in {4, 8, 10};
      var there := 0 <= addr && addr + 8 <= |mem|;
      && MemStage(m, mem).status == (if (loads || stores) && !there then Adr else m.status)
      && MemStage(m, mem).valM == if loads && there then GetWordVal(mem, addr).value else 0
  {
  }

  /** do_ex_stage, without the condition codes */
  function ExStage(e: IdEx, cc: CC): ExMem {
    var takeBranch := CondHolds(cc, e.ifun);
    ExMem(e.icode, e.ifun, takeBranch, ComputeAlu(GenAluFun(e), GenAluA(e), GenAluB(e)), e.valA,
          GenEDstE(e, takeBranch), e.dstM, e.srcA, e.status, e.stagePc)
  }

  function ExCc(e: IdEx): CC { ComputeCc(GenAluFun(e), GenAluA(e), GenAluB(e)) }

  /** do_id_wb_stages, the decode half */
  function IdStage(d: IfId, reg: Regs, eNext: ExMem, m: ExMem, mNext: MemWb, w: MemWb): IdEx {
    var srcA, srcB := GenDSrcA(d), GenDSrcB(d);
    IdEx(d.icode, d.ifun, d.valC,
         GenDValA(d, srcA, eNext, m, mNext, w, GetReg(reg, srcA)),
         GenDValB(srcB, eNext, m, mNext, w, GetReg(reg, srcB)),
         srcA, srcB, GenDDstE(d), GenDDstM(d), d.status, d.stagePc)
  }

  /** The two register writes of update_state; the memory result is written last. */
  function WriteBack(reg: Regs, w: MemWb): Regs {
    SetReg(SetReg(reg, w.dstE, w.valE), w.dstM, w.valM)
  }

  function MemWrite(mem: Mem, m: ExMem): Mem {
    if GenMemWrite(m) && SetWordVal(mem, GenMemAddr(m), m.valA).Some?
    then SetWordVal(mem, GenMemAddr(m), m.valA).value
    else mem
  }

  // ---------- Next values of one cycle ----------

  function DNext(c: Clocked): IfId { FetchAt(c.mem, GenFPc(c.f, c.m, c.w)) }
  function WNext(c: Clocked): MemWb { MemStage(c.m, c.mem) }
  function MNext(c: Clocked): ExMem { ExStage(c.e, c.cc) }
  function ENext(c: Clocked): IdEx { IdStage(c.d, c.reg, MNext(c), c.m, WNext(c), c.w) }
  function CcNext(c: Clocked): CC { if GenSetCc(c.e, WNext(c), c.w) then ExCc(c.e) else c.cc }

  // ---------- Pipeline control ----------

  datatype PipeOp = PLoad | PStall | PBubble | PError

  function PipeCntl(stall: bool, bubble: bool): PipeOp {
    if stall then (if bubble then PError else PStall) else (if bubble then PBubble else PLoad)
  }

  function FOp(c: Clocked): PipeOp { PipeCntl(GenFStall(c.d, c.e, ENext(c), c.m), GenFBubble()) }
  function DOp(c: Clocked): PipeOp { PipeCntl(GenDStall(c.e, ENext(c)), GenDBubble(c.d, c.e, ENext(c), c.m, MNext(c))) }
  function EOp(c: Clocked): PipeOp { PipeCntl(GenEStall(), GenEBubble(c.e, ENext(c), MNext(c))) }
  function MOp(c: Clocked): PipeOp { PipeCntl(GenMStall(), GenMBubble(c.w, WNext(c))) }
  function WOp(c: Clocked): PipeOp { PipeCntl(GenWStall(c.w), GenWBubble()) }

  /** What update_pipes leaves in a pipeline register. */
  function Latch<T>(op: PipeOp, curr: T, next: T, bubble: T): T {
    match op
    case PLoad => next
    case PStall => curr
    case PBubble => bubble
    case PError => bubble
  }

  /** Stall and bubble are never requested together, whatever the pipeline holds. */
  lemma ControlNeverConflicts(c: Clocked)
    ensures FOp(c) != PError && DOp(c) != PError && EOp(c) != PError && MOp(c) != PError && WOp(c) != PError
  {
  }

  /** One clock edge: update_state and update_pipes applied to the signals of this cycle. */
  function Cycle(c: Clocked): Clocked {
    Clocked(WriteBack(c.reg, c.w), MemWrite(c.mem, c.m), CcNext(c),
            Latch(FOp(c), c.f, PcStage(DNext(c)), BUBBLE_PC),
            Latch(DOp(c), c.d, DNext(c), BUBBLE_IF_ID),
            Latch(EOp(c), c.e, ENext(c), BUBBLE_ID_EX),
            Latch(MOp(c), c.m, MNext(c), BUBBLE_EX_MEM),
            Latch(WOp(c), c.w, WNext(c), BUBBLE_MEM_WB))
  }

  /** The clocked state in the first simulated cycle: empty pipeline, predicted pc 0. */
  function Reset(s: State): Clocked {
    Clocked(s.r, s.m, s.cc, BUBBLE_PC, BUBBLE_IF_ID, BUBBLE_ID_EX, BUBBLE_EX_MEM, BUBBLE_MEM_WB)
  }

  function Cycles(c: Clocked, t: nat): Clocked {
    if t == 0 then c else Cycle(Cycles(c, t - 1))
  }
}

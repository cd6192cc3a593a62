/**
  The pipelined simulator in the form psim.c gives it: current and next pipeline registers,
  pending updates and stage functions that overwrite them, and the run-time comparison with
  the ISA simulator, which is proved to succeed.
 */
module PipeSim {
  import opened Bytes
  import opened Options
  import opened Y86Isa
  import opened Y86State
  import opened PipeStd
  import opened PipeMachine
  import opened PipeContents
  import opened PipeSchedule
  import opened PipeCorrect
  import opened PipeLimit

  /** A pipeline register: current and next contents and the operation for the next edge. */
  datatype PipeEle<T> = PipeEle(curr: T, next: T, op: PipeOp, bubble: T) {
    function Updated(): PipeEle<T> { this.(curr := Latch(op, curr, next, bubble), op := PLoad) }
  }

  class Psim {
    const mem: array<Byte>
    const reg: array<Word>
    var cc: CC
    var status: Stat

    // pending updates
    var ccIn: CC
    var wbDestE: Nibble
    var wbValE: Word
    var wbDestM: Nibble
    var wbValM: Word
    var memAddr: Word
    var memData: Word
    var memWrite: bool

    // pipeline registers
    var pcState: PipeEle<Pc>
    var ifIdState: PipeEle<IfId>
    var idExState: PipeEle<IdEx>
    var exMemState: PipeEle<ExMem>
    var memWbState: PipeEle<MemWb>

    ghost predicate Valid()
      reads this
    {
      && reg.Length == 15 && mem.Length < 0x8000_0000
      && pcState.op != PError && pcState.bubble == BUBBLE_PC
      && ifIdState.op != PError && ifIdState.bubble == BUBBLE_IF_ID
      && idExState.op != PError && idExState.bubble == BUBBLE_ID_EX
      && exMemState.op != PError && exMemState.bubble == BUBBLE_EX_MEM
      && memWbState.op != PError && memWbState.bubble == BUBBLE_MEM_WB
    }

    /** The clocked state of the current cycle. */
    ghost function Clk(): Clocked
      requires Valid()
      reads this, reg, mem
    {
      Clocked(reg[..], mem[..], cc, pcState.curr, ifIdState.curr, idExState.curr, exMemState.curr, memWbState.curr)
    }

    ghost function PendingMem(): Mem
      requires Valid()
      reads this, mem
    {
      if memWrite && SetWordVal(mem[..], memAddr, memData).Some?
      then SetWordVal(mem[..], memAddr, memData).value else mem[..]
    }

    /** The clocked state that the pending updates and register operations produce. */
    ghost function Pending(): Clocked
      requires Valid()
      reads this, reg, mem
    {
      Clocked(SetReg(SetReg(reg[..], wbDestE, wbValE), wbDestM, wbValM), PendingMem(), ccIn,
              pcState.Updated().curr, ifIdState.Updated().curr, idExState.Updated().curr,
              exMemState.Updated().curr, memWbState.Updated().curr)
    }

    /** The state together with how many instructions are ahead of the one in M and of the one in E. */
    ghost function Abs(): Machine
      requires Valid()
      reads this, reg, mem
    {
      Machine(Clk(), Pending(), Busy(memWbState.curr), Busy(memWbState.curr) + Busy(memWbState.next))
    }

    /** sim_init and sim_reset on a loaded memory image */
    constructor (image: array<Byte>)
      requires image.Length < 0x8000_0000
      ensures Valid() && fresh(reg) && mem == image
      ensures Pending() == Reset(Loaded(image[..])) && Idle(Abs())
    {
      mem := image;
      reg := new Word[15](_ => 0);
      cc, ccIn, status := DEFAULT_CC, DEFAULT_CC, Aok;
      wbDestE, wbValE, wbDestM, wbValM := REG_NONE, 0, REG_NONE, 0;
      memAddr, memData, memWrite := 0, 0, false;
      pcState := PipeEle(BUBBLE_PC, BUBBLE_PC, PLoad, BUBBLE_PC);
      ifIdState := PipeEle(BUBBLE_IF_ID, BUBBLE_IF_ID, PLoad, BUBBLE_IF_ID);
      idExState := PipeEle(BUBBLE_ID_EX, BUBBLE_ID_EX, PLoad, BUBBLE_ID_EX);
      exMemState := PipeEle(BUBBLE_EX_MEM, BUBBLE_EX_MEM, PLoad, BUBBLE_EX_MEM);
      memWbState := PipeEle(BUBBLE_MEM_WB, BUBBLE_MEM_WB, PLoad, BUBBLE_MEM_WB);
    }

    /** update_state */
    method UpdateState(updateMem: bool, updateCc: bool)
      requires Valid()
      modifies reg, mem, `cc
      ensures reg[..] == SetReg(SetReg(old(reg[..]), wbDestE, wbValE), wbDestM, wbValM)
      ensures mem[..] == if updateMem then old(PendingMem()) else old(mem[..])
      ensures cc == if updateCc then ccIn else old(cc)
    {
      if wbDestE != REG_NONE { reg[wbDestE] := wbValE; }
      if wbDestM != REG_NONE { reg[wbDestM] := wbValM; }
      if updateMem && memWrite {
        var _ := SetWord(mem, memAddr, memData);
      }
      if updateCc { cc := ccIn; }
    }

    /** update_pipes */
    method UpdatePipes()
      requires Valid()
      modifies `pcState, `ifIdState, `idExState, `exMemState, `memWbState
      ensures Valid()
      ensures pcState == old(pcState.Updated()) && ifIdState == old(ifIdState.Updated())
      ensures idExState == old(idExState.Updated()) && exMemState == old(exMemState.Updated())
      ensures memWbState == old(memWbState.Updated())
    {
      hide Latch;
      pcState := pcState.Updated();
      ifIdState := ifIdState.Updated();
      idExState := idExState.Updated();
      exMemState := exMemState.Updated();
      memWbState := memWbState.Updated();
    }

    /** do_if_stage */
    method DoIfStage()
      requires Valid()
      modifies `ifIdState, `pcState
      ensures ifIdState == old(ifIdState).(next := DNext(old(Clk())))
      ensures pcState == old(pcState).(next := PcStage(DNext(old(Clk()))))
    {
      var fPc := GenFPc(pcState.curr, exMemState.curr, memWbState.curr);
      var ok, instr := GetByte(mem, fPc);
      if !ok { instr := 0x10; }
      var imemError := !ok;
      if !imemError {
        var ok5, _ := GetByte(mem, Add(fPc, 5));
        imemError := !ok5;
      }
      var icode := GenFIcode(imemError, Hi4(instr));
      var ifun := GenFIfun(imemError, Lo4(instr));
      var stat := GenFStat(imemError, GenInstrValid(icode), icode);
      var valP := Add(fPc, 1);
      var regids: Byte := 0xFF;
      if GenNeedRegids(icode) {
        var okR, b := GetByte(mem, valP);
        if okR { regids := b; }
        valP := Add(valP, 1);
      }
      var valC: Word := 0;
      if GenNeedValC(icode) {
        var okC, w := GetWord(mem, valP);
        if okC { valC := w; }
        valP := Add(valP, 8);
      }
      var fetched := IfId(icode, ifun, Hi4(regids), Lo4(regids), valC, valP, stat, fPc);
      ifIdState := ifIdState.(next := fetched);
      pcState := pcState.(next := Pc(GenFPredPc(fetched), if stat == Aok then Aok else Bub));
    }

    /** do_mem_stage */
    method DoMemStage()
      requires Valid()
      modifies `memAddr, `memData, `memWrite, `memWbState
      ensures memWbState == old(memWbState).(next := WNext(old(Clk())))
      ensures memWrite == GenMemWrite(exMemState.curr) && memAddr == GenMemAddr(exMemState.curr)
      ensures memData == exMemState.curr.valA
    {
      var m := exMemState.curr;
      memAddr := GenMemAddr(m);
      memData := m.valA;
      memWrite := GenMemWrite(m);
      var dmemError, valM: Word := false, 0;
      if GenMemRead(m) {
        var ok, v := GetWord(mem, memAddr);
        dmemError := !ok;
        if ok { valM := v; }
      }
      if memWrite {
        var ok, _ := GetWord(mem, memAddr);
        dmemError := dmemError || !ok;
      }
      memWbState := memWbState.(next :=
        MemWb(m.icode, m.ifun, m.valE, valM, m.dstE, m.dstM, GenMStat(dmemError, m), m.stagePc));
    }

    /** do_ex_stage; cc_in keeps its old value unless this cycle sets the condition codes */
    method DoExStage()
      requires Valid()
      modifies `exMemState, `ccIn
      ensures exMemState == old(exMemState).(next := MNext(old(Clk())))
      ensures ccIn == if GenSetCc(idExState.curr, memWbState.next, memWbState.curr) then ExCc(idExState.curr) else old(ccIn)
    {
      var e := idExState.curr;
      var aluFun := GenAluFun(e);
      var setCc := GenSetCc(e, memWbState.next, memWbState.curr);
      var aluA, aluB := GenAluA(e), GenAluB(e);
      var takeBranch := CondHolds(cc, e.ifun);
      var valE := ComputeAlu(aluFun, aluA, aluB);
      if setCc { ccIn := ComputeCc(aluFun, aluA, aluB); }
      exMemState := exMemState.(next :=
        ExMem(e.icode, e.ifun, takeBranch, valE, e.valA, GenEDstE(e, takeBranch), e.dstM, e.srcA, e.status, e.stagePc));
    }

    /** do_id_wb_stages */
    method DoIdWbStages()
      requires Valid() && memWbState.next == WNext(Clk()) && exMemState.next == MNext(Clk())
      modifies `wbDestE, `wbValE, `wbDestM, `wbValM, `status, `idExState
      ensures idExState == old(idExState).(next := ENext(old(Clk()))) && status == GenStat(memWbState.curr)
      ensures wbDestE == memWbState.curr.dstE && wbValE == memWbState.curr.valE
      ensures wbDestM == memWbState.curr.dstM && wbValM == memWbState.curr.valM
    {
      hide Forward, GenDDstE, GenDDstM, GenDSrcA, GenDSrcB, MemStage, ExStage;
      var d, m, w := ifIdState.curr, exMemState.curr, memWbState.curr;
      wbDestE, wbValE := w.dstE, w.valE;
      wbDestM, wbValM := w.dstM, w.valM;
      status := GenStat(w);
      var srcA, srcB := GenDSrcA(d), GenDSrcB(d);
      var regValA := if srcA >= REG_NONE then 0 else reg[srcA];
      var regValB := if srcB >= REG_NONE then 0 else reg[srcB];
      idExState := idExState.(next :=
        IdEx(d.icode, d.ifun, d.valC,
             GenDValA(d, srcA, exMemState.next, m, memWbState.next, w, regValA),
             GenDValB(srcB, exMemState.next, m, memWbState.next, w, regValB),
             srcA, srcB, GenDDstE(d), GenDDstM(d), d.status, d.stagePc));
    }

    /** do_stall_check */
    method DoStallCheck()
      requires Valid()
      requires memWbState.next == WNext(Clk()) && exMemState.next == MNext(Clk()) && idExState.next == ENext(Clk())
      modifies `pcState, `ifIdState, `idExState, `exMemState, `memWbState
      ensures Valid()
      ensures pcState == old(pcState).(op := FOp(old(Clk()))) && ifIdState == old(ifIdState).(op := DOp(old(Clk())))
      ensures idExState == old(idExState).(op := EOp(old(Clk()))) && exMemState == old(exMemState).(op := MOp(old(Clk())))
      ensures memWbState == old(memWbState).(op := WOp(old(Clk())))
    {
      hide DNext, ENext, MNext, WNext, LoadUse, RetPending, Mispredicted, IsException;
      ControlNeverConflicts(Clk());
      var d, e, m, w := ifIdState.curr, idExState.curr, exMemState.curr, memWbState.curr;
      var eN, mN, wN := idExState.next, exMemState.next, memWbState.next;
      pcState := pcState.(op := PipeCntl(GenFStall(d, e, eN, m), GenFBubble()));
      ifIdState := ifIdState.(op := PipeCntl(GenDStall(e, eN), GenDBubble(d, e, eN, m, mN)));
      idExState := idExState.(op := PipeCntl(GenEStall(), GenEBubble(e, eN, mN)));
      exMemState := exMemState.(op := PipeCntl(GenMStall(), GenMBubble(w, wN)));
      memWbState := memWbState.(op := PipeCntl(GenWStall(w), GenWBubble()));
    }

    /** The pending signals are those of the current cycle; before is what was pending for the condition codes. */
    ghost predicate Settled(before: CC)
      requires Valid()
      reads this, reg, mem
    {
      var c := Clk();
      && wbDestE == c.w.dstE && wbValE == c.w.valE && wbDestM == c.w.dstM && wbValM == c.w.valM
      && memWrite == GenMemWrite(c.m) && memAddr == GenMemAddr(c.m) && memData == c.m.valA
      && ccIn == CcAfter(c, before)
      && pcState.next == PcStage(DNext(c)) && pcState.op == FOp(c)
      && ifIdState.next == DNext(c) && ifIdState.op == DOp(c)
      && idExState.next == ENext(c) && idExState.op == EOp(c)
      && exMemState.next == MNext(c) && exMemState.op == MOp(c)
      && memWbState.next == WNext(c) && memWbState.op == WOp(c)
    }

    lemma SettledPending(before: CC)
      requires Valid() && Settled(before)
      ensures Pending() == Cycle(Clk()).(cc := CcAfter(Clk(), before)) && memWbState.next == WNext(Clk())
    {
      hide CcAfter, Latch, FOp, DOp, EOp, MOp, WOp, DNext, ENext, MNext, WNext, CcNext, SetReg, SetWordVal,
        GenMemWrite, GenMemAddr, PcStage;
    }

    /** Fetch, memory, execute and decode of the current cycle. */
    method ComputeStages()
      requires Valid()
      modifies `ccIn, `wbDestE, `wbValE, `wbDestM, `wbValM, `memAddr, `memData, `memWrite, `status,
        `pcState, `ifIdState, `idExState, `exMemState, `memWbState
      ensures pcState == old(pcState).(next := PcStage(DNext(old(Clk()))))
      ensures ifIdState == old(ifIdState).(next := DNext(old(Clk())))
      ensures idExState == old(idExState).(next := ENext(old(Clk())))
      ensures exMemState == old(exMemState).(next := MNext(old(Clk())))
      ensures memWbState == old(memWbState).(next := WNext(old(Clk())))
      ensures wbDestE == memWbState.curr.dstE && wbValE == memWbState.curr.valE
      ensures wbDestM == memWbState.curr.dstM && wbValM == memWbState.curr.valM
      ensures memWrite == GenMemWrite(exMemState.curr) && memAddr == GenMemAddr(exMemState.curr)
      ensures memData == exMemState.curr.valA
      ensures ccIn == CcAfter(old(Clk()), old(ccIn)) && status == GenStat(memWbState.curr)
    {
      hide DNext, ENext, MNext, WNext, GenSetCc, ExCc, GenMemWrite, GenMemAddr, PcStage, GenStat;
      DoIfStage();
      DoMemStage();
      DoExStage();
      DoIdWbStages();
    }

    /** The second half of sim_step_pipe. */
    method ComputeSignals()
      requires Valid()
      modifies `ccIn, `wbDestE, `wbValE, `wbDestM, `wbValM, `memAddr, `memData, `memWrite, `status,
        `pcState, `ifIdState, `idExState, `exMemState, `memWbState
      ensures Valid() && Clk() == old(Clk()) && Settled(old(ccIn))
      ensures status == GenStat(Clk().w)
    {
      hide FOp, DOp, EOp, MOp, WOp, DNext, ENext, MNext, WNext, CcAfter, GenMemWrite, GenMemAddr, PcStage, GenStat;
      ComputeStages();
      DoStallCheck();
    }

    /** sim_step_pipe: apply the pending updates that the limit allows, then compute the signals of the new cycle. */
    method SimStepPipe(maxInstr: int) returns (result: Stat)
      requires Valid()
      modifies this, reg, mem
      ensures Valid()
      ensures Abs() == Step(old(Abs()), maxInstr) && result == GenStat(Clk().w)
    {
      hide Latch, Cycle, SetReg, SetWordVal, Settled, CcAfter;
      var aheadMem := if memWbState.curr.status != Bub then 1 else 0;
      var aheadEx := aheadMem + (if memWbState.next.status != Bub then 1 else 0);
      UpdateState(aheadMem < maxInstr, aheadEx < maxInstr);
      UpdatePipes();
      ComputeSignals();
      SettledPending(old(ccIn));
      return status;
    }

    /**
      sim_run_pipe, for every machine and all limits.  The count returned is that of cycles:
      GenStat never reports a bubble.
     */
    method SimRunPipe(maxInstr: int, maxCycle: int) returns (icount: nat, runStatus: Stat, finalCc: CC)
      requires Valid()
      modifies this, reg, mem
      ensures Valid() && Abs() == Steps(old(Abs()), maxInstr, icount)
      ensures icount > 0 ==> icount <= maxInstr && icount <= maxCycle
      ensures icount < maxInstr && icount < maxCycle ==> icount > 0 && runStatus != Aok
      ensures forall t: nat :: 0 < t < icount ==> GenStat(Steps(old(Abs()), maxInstr, t).clk.w) == Aok
      ensures runStatus == (if icount == 0 then Aok else GenStat(Clk().w)) && finalCc == Clk().cc
    {
      hide Step, Abs, Clk, GenStat;
      ghost var mc := Abs();
      icount, runStatus := 0, Aok;
      var ccount := 0;
      while icount < maxInstr && ccount < maxCycle
        invariant Valid()
        invariant icount == ccount && (icount > 0 ==> icount <= maxInstr && icount <= maxCycle)
        invariant Abs() == Steps(mc, maxInstr, icount)
        invariant forall t: nat :: 0 < t <= icount ==> GenStat(Steps(mc, maxInstr, t).clk.w) == Aok
        invariant runStatus == Aok && (icount > 0 ==> runStatus == GenStat(Clk().w))
      {
        runStatus := SimStepPipe(maxInstr - icount);
        NeverBubble(Clk().w);
        AbsClock();
        if runStatus != Bub { icount := icount + 1; }
        if runStatus != Aok && runStatus != Bub { break; }
        ccount := ccount + 1;
      }
      ClockFlags();
      finalCc := cc;
    }

    lemma AbsClock()
      requires Valid()
      ensures Abs().clk == Clk()
    {
    }

    lemma ClockFlags()
      requires Valid()
      ensures Clk().cc == cc
    {
    }
  }

  lemma NeverBubble(w: MemWb)
    ensures GenStat(w) != Bub
  {
  }

  /**
    run_tty_sim with the ISA check enabled: run the pipeline, run the ISA simulator on a copy of
    the same image, compare.  Under a limit that lets a halt reach write-back the check succeeds;
    under any other it succeeds exactly if the parts of the three ISA states that the pipeline
    then shows are those of the state that the ISA simulator has reached.
   */
  method RunTtySim(image: array<Byte>, instrLimit: int) returns (matches: bool)
    requires image.Length < 0x8000_0000 && GoodProgram(Loaded(image[..]))
    modifies image
    ensures matches <==> HaltedBy(Loaded(old(image[..])), instrLimit) || Agrees(Loaded(old(image[..])), instrLimit)
  {
    hide *;
    ghost var s0 := Loaded(image[..]);
    var copy := new Byte[image.Length](i requires 0 <= i < image.Length reads image => image[i]);
    assert copy[..] == image[..];
    var isa := new StateRec(copy);
    LoadedIs(image[..]);
    var pipe := new Psim(image);
    ghost var mc := pipe.Abs();
    StartsIdle(pipe, s0);
    var count, runStatus, finalCc := pipe.SimRunPipe(instrLimit, 5 * instrLimit);
    pipe.AbsClock();
    RunEnds(mc, instrLimit, count, runStatus, pipe.Clk());
    WhatIsCompared(s0, mc, instrLimit, count);
    RunIsa(isa, instrLimit, s0);
    matches := Compare(isa, pipe, finalCc);
  }

  lemma LoadedIs(image: Mem)
    ensures Loaded(image) == State(0, seq(15, _ => 0), image, DEFAULT_CC)
  {
  }

  lemma StartsIdle(pipe: Psim, s0: State)
    requires pipe.Valid() && pipe.Pending() == Reset(s0)
    ensures pipe.Abs().pend == Reset(s0)
  {
    hide Reset, Psim.Clk, Psim.Pending;
  }

  /** What sim_run_pipe promises, in terms of the steps it has made. */
  lemma RunEnds(mc: Machine, limit: int, count: nat, runStatus: Stat, last: Clocked)
    requires count > 0 ==> count <= limit
    requires count < limit && count < 5 * limit ==> count > 0 && runStatus != Aok
    requires forall t: nat :: 0 < t < count ==> GenStat(Steps(mc, limit, t).clk.w) == Aok
    requires runStatus == (if count == 0 then Aok else GenStat(last.w)) && last == Steps(mc, limit, count).clk
    ensures Ends(mc, limit, count)
  {
    hide Steps, GenStat;
  }

  /** The pipeline shows the state of the ISA run, or what the limit leaves of it. */
  lemma WhatIsCompared(s0: State, mc: Machine, limit: int, count: nat)
    requires GoodProgram(s0) && Idle(mc) && mc.pend == Reset(s0) && Ends(mc, limit, count)
    ensures var c, s := Steps(mc, limit, count).clk, RunTo(s0, limit);
      c.reg == s.r && c.mem == s.m && c.cc == s.cc <==> HaltedBy(s0, limit) || Agrees(s0, limit)
  {
    hide GoodProgram, Idle, Reset, Ends, Steps, Run, RunTo, HaltedBy, Written, Stored, Flagged;
    if HaltedBy(s0, limit) {
      HaltIsShown(s0, mc, limit, count);
    } else {
      LimitIsShown(s0, mc, limit, count);
    }
  }

  /** diff_reg, diff_mem and the comparison of the condition codes. */
  method Compare(isa: StateRec, pipe: Psim, finalCc: CC) returns (matches: bool)
    requires isa.Valid() && pipe.Valid() && finalCc == pipe.Clk().cc
    ensures matches <==> isa.Snapshot().r == pipe.Clk().reg && isa.Snapshot().m == pipe.Clk().mem && isa.Snapshot().cc == pipe.Clk().cc
  {
    matches := isa.r[..] == pipe.reg[..] && isa.m[..] == pipe.mem[..] && isa.cc == finalCc;
  }

  /** The loop that runs the ISA simulator until it reports a status other than AOK. */
  method RunIsa(isa: StateRec, instrLimit: int, ghost s0: State)
    requires isa.Valid() && isa.Snapshot() == s0 && GoodProgram(s0)
    modifies isa, isa.r, isa.m
    ensures isa.Valid() && isa.Snapshot() == RunTo(s0, instrLimit)
  {
    hide StepState, GoodProgram, Flows, StateRec.Snapshot, StateRec.Valid;
    var e := Aok;
    var step := 0;
    while step < instrLimit && e == Aok
      invariant isa.Valid() && step >= 0 && (step > 0 ==> step <= instrLimit)
      invariant isa.Snapshot() == Run(s0, step)
      invariant e != Aok ==> step > 0 && Flows(s0)(step - 1) == Halts
    {
      FlowOfRun(s0, step);
      e := isa.Step();
      step := step + 1;
    }
    if e != Aok {
      StaysAtHalt(s0, step - 1, step);
      StaysAtHalt(s0, step - 1, instrLimit);
    }
  }
}

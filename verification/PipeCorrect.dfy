/**
  The pipeline implements the ISA.

  Instructions are numbered in ISA order; instruction i executes in state Run(s0, i).  The
  invariant says that everything the pipeline stores is determined by the ISA run and the
  occupancy: the register file reflects the instructions that have left W, memory those that
  have left M, the condition codes those that have left E.
 */
module PipeCorrect {
  import opened Options
  import opened Y86Isa
  import opened PipeStd
  import opened PipeMachine
  import opened PipeContents
  import opened PipeSchedule

  // ---------- ISA runs ----------

  function Run(s0: State, i: nat): State {
    if i == 0 then s0 else After(Run(s0, i - 1))
  }

  function FlowOf(s: State): Flow {
    if IsHalt(s) then Halts else if IsRet(s) then Returns
    else if IsMispredicted(s) then Mispredicts else Plain
  }

  /** A load directly followed by an instruction that reads the loaded register. */
  predicate LoadUsePair(s: State, s': State) { LoadUse(EOf(s), EOf(s')) }

  ghost function Flows(s0: State): nat -> Flow { (i: nat) => FlowOf(Run(s0, i)) }
  ghost function Pairs(s0: State): nat -> bool { (i: nat) => LoadUsePair(Run(s0, i), Run(s0, i + 1)) }

  /**
    Instruction i is supported, and its encoding is not changed by any of the three
    instructions before it, which are still in flight when it is fetched.
   */
  ghost predicate GoodAt(s0: State, i: nat) {
    && Supported(Run(s0, i))
    && forall j: nat :: i - 3 <= j < i ==> FetchAt(Run(s0, j).m, Run(s0, i).pc) == DOf(Run(s0, i))
  }

  ghost predicate GoodProgram(s0: State) {
    s0.pc == 0 && forall i: nat :: GoodAt(s0, i)
  }

  // ---------- The invariant ----------

  ghost predicate Holds(s0: State, k: Occ, c: Clocked) {
    && c.reg == Run(s0, k.a).r
    && c.mem == Run(s0, k.B()).m
    && c.cc == Run(s0, k.C()).cc
    && (if k.w == Right then c.w == WOf(Run(s0, k.a)) else IdleW(c.w))
    && (if k.m == Right then HoldsM(c.m, Run(s0, k.B())) else IdleM(c.m))
    && (k.e == Right ==> HoldsE(c.e, Run(s0, k.C())))
    && (k.e == Bubble ==> IdleE(c.e))
    && (k.d == Right ==> c.d == DOf(Run(s0, k.D())))
    && (k.d == Bubble ==> IdleD(c.d))
    && HoldsF(s0, k.F(), c)
  }

  /** Unless the youngest right-path instruction redirects fetching, F predicts its successor. */
  ghost predicate HoldsF(s0: State, next: nat, c: Clocked) {
    (next > 0 && Flows(s0)(next - 1) != Plain) || c.f.pc == Run(s0, next).pc
  }

  ghost predicate Live(s0: State, k: Occ, c: Clocked) {
    GoodProgram(s0) && Shape(Flows(s0), k) && !Halted(Flows(s0), k) && Holds(s0, k, c)
  }

  /** Each right-path slot separates two consecutive ISA states. */
  lemma SlotMoves(s0: State, slot: Slot, i: nat)
    requires GoodProgram(s0)
    ensures Moves(slot, Run(s0, i), Run(s0, i + One(slot)))
  {
    hide StepState, FetchAt;
    assert GoodAt(s0, i);
  }

  lemma EdgeState(c: Clocked)
    ensures Cycle(c).reg == WriteBack(c.reg, c.w)
    ensures Cycle(c).mem == MemWrite(c.mem, c.m)
    ensures Cycle(c).cc == CcNext(c)
  {
    hide WriteBack, MemWrite, CcNext, DNext, ENext, MNext, WNext;
  }

  lemma RegistersAdvance(s0: State, k: Occ, c: Clocked)
    requires Live(s0, k, c)
    ensures Cycle(c).reg == Run(s0, k.B()).r
    ensures !IsException(c.w.status)
  {
    hide StepState, FetchAt, WOf, MOf, EOf, Supported, Run, Shape, HoldsM, HoldsE, HoldsF, IdleD, IdleE, IdleM, Cycle, After, MemWrite;
    assert Cycle(c).reg == WriteBack(c.reg, c.w) by { EdgeState(c); }
    SlotMoves(s0, k.w, k.a);
    if k.w == Right {
      StagesImplementStep(Run(s0, k.a));
      assert FlowOf(Run(s0, k.a)) != Halts;
    }
  }

  lemma MemoryAdvances(s0: State, k: Occ, c: Clocked)
    requires Live(s0, k, c)
    ensures Cycle(c).mem == Run(s0, k.C()).m
    ensures if k.m == Right then WNext(c) == WOf(Run(s0, k.B())) else IdleW(WNext(c))
    ensures IsException(WNext(c).status) <==> k.m == Right && Flows(s0)(k.B()) == Halts
  {
    hide StepState, FetchAt, WOf, MOf, EOf, Supported, Run, Shape, HoldsM, HoldsE, HoldsF, IdleE, IdleD, WriteBack, Cycle, After;
    assert Cycle(c).mem == MemWrite(c.mem, c.m) by { EdgeState(c); }
    SlotMoves(s0, k.m, k.B());
    if k.m == Right {
      StagesImplementStep(Run(s0, k.B()));
      MemoryHolds(c.m, Run(s0, k.B()));
    }
  }

  ghost predicate Halting(s0: State, k: Occ) { k.m == Right && Flows(s0)(k.B()) == Halts }

  lemma ExecuteAdvances(s0: State, k: Occ, c: Clocked)
    requires Live(s0, k, c)
    ensures Cycle(c).cc == Run(s0, k.D()).cc
    ensures Halting(s0, k) ==> Cycle(c).m == BUBBLE_EX_MEM
    ensures !Halting(s0, k) && k.e == Right ==> HoldsM(Cycle(c).m, Run(s0, k.C()))
    ensures !Halting(s0, k) && k.e == Bubble ==> IdleM(Cycle(c).m)
    ensures Cycle(c).w == WNext(c)
  {
    hide StepState, FetchAt, WOf, Supported, Run, HoldsM, IdleD, WriteBack, WNext, ComputeAlu, ComputeCc;
    RegistersAdvance(s0, k, c);
    MemoryAdvances(s0, k, c);
    SlotMoves(s0, k.e, k.C());
    if k.e == Right {
      StagesImplementStep(Run(s0, k.C()));
      ExecuteHolds(c.e, Run(s0, k.C()));
    }
  }

  lemma DecodeSources(c: Clocked)
    ensures ENext(c).srcA == GenDSrcA(c.d) && ENext(c).srcB == GenDSrcB(c.d)
  {
    hide MNext, WNext, GenDValA, GenDValB, GenDSrcA, GenDSrcB;
  }

  /** E and D hold consecutive instructions: the hazard is that of the pair. */
  lemma PairHazard(s: State, s': State, c: Clocked)
    requires HoldsE(c.e, s) && c.d == DOf(s')
    ensures LoadUse(c.e, ENext(c)) <==> LoadUsePair(s, s')
  {
    hide DOf, ENext, GenDSrcA, GenDSrcB, GenDDstE, GenDDstM, GetReg;
    DecodeSources(c);
  }

  /** An instruction in E that redirects fetching is no load. */
  lemma RedirectIsNoLoad(s: State, e: IdEx, eN: IdEx)
    requires HoldsE(e, s) && FlowOf(s) != Plain
    ensures !LoadUse(e, eN)
  {
    hide DOf, GenDSrcA, GenDSrcB, GenDDstE, GenDDstM, GetReg;
  }

  /** The slots of E and D when no hazard can arise. */
  lemma NoPairInside(flow: nat -> Flow, k: Occ)
    requires Shape(flow, k) && !Halted(flow, k) && !(k.m == Right && flow(k.B()) == Halts)
    ensures k.e != Wrong
    ensures k.e == Right && k.d != Right ==> flow(k.C()) != Plain
    ensures k.e == Right ==> k.D() == k.C() + 1
  {
  }

  /** The hazard signals seen by the control logic are those of the schedule. */
  lemma LoadUseIsScheduled(s0: State, k: Occ, c: Clocked)
    requires Live(s0, k, c) && !Halting(s0, k)
    ensures LoadUse(c.e, ENext(c)) <==> Stalls(Pairs(s0), k)
  {
    hide GoodProgram, Run, DOf, Shape, Halted, IdleW, IdleM, IdleD, HoldsE, HoldsM, HoldsF, ENext, WOf, FlowOf, LoadUsePair, Occ.B, Occ.C, Occ.D, Occ.F;
    NoPairInside(Flows(s0), k);
    if k.e == Right {
      if k.d == Right {
        PairHazard(Run(s0, k.C()), Run(s0, k.D()), c);
      } else {
        RedirectIsNoLoad(Run(s0, k.C()), c.e, ENext(c));
      }
    }
  }

  lemma RedirectsAreScheduled(s0: State, k: Occ, c: Clocked)
    requires Live(s0, k, c) && !Halting(s0, k)
    ensures Mispredicted(c.e, MNext(c)) <==> k.e == Right && Flows(s0)(k.C()) == Mispredicts
    ensures k.d != Wrong ==> (RetPending(c.d, c.e, c.m) <==> ReturnPending(Flows(s0), k))
  {
    hide StepState, FetchAt, Supported, Run, IdleW, HoldsF, WNext, ENext, ComputeAlu, GetReg, WOf;
  }

  lemma OperandIsCurrent(s0: State, k: Occ, c: Clocked, src: Nibble)
    requires Live(s0, k, c) && k.d == Right && src < REG_NONE
    requires k.e == Right && (c.e.icode == I_MRMOVQ || c.e.icode == I_POPQ) ==> c.e.dstM != src
    ensures Forward(src, MNext(c), c.m, WNext(c), c.w, GetReg(c.reg, src)) == GetReg(Run(s0, k.D()).r, src)
  {
    hide StepState, FetchAt, Run, WNext, MNext, Forward, HoldsM, HoldsE, WOf, GetReg, IdleD, IdleW, IdleM, IdleE, HoldsF, Supported;
    SlotMoves(s0, k.w, k.a);
    SlotMoves(s0, k.m, k.B());
    SlotMoves(s0, k.e, k.C());
    ForwardIsCurrent(src, c, k.w, k.m, k.e, Run(s0, k.a), Run(s0, k.B()), Run(s0, k.C()), Run(s0, k.D()));
  }

  /** An unstalled right-path instruction leaves decode with the operands the ISA gives it. */
  lemma DecodeHolds(s0: State, k: Occ, c: Clocked)
    requires Live(s0, k, c) && k.d == Right && !Stalls(Pairs(s0), k)
    ensures HoldsE(ENext(c), Run(s0, k.D()))
  {
    hide StepState, FetchAt, Run, WNext, MNext, Forward, HoldsM, HoldsE, WOf, GetReg, IdleD, IdleW, IdleM, IdleE, HoldsF, Supported;
    LoadUseIsScheduled(s0, k, c);
    assert !LoadUse(c.e, ENext(c));
    if GenDSrcA(c.d) != REG_NONE { OperandIsCurrent(s0, k, c, GenDSrcA(c.d)); }
    if GenDSrcB(c.d) != REG_NONE { OperandIsCurrent(s0, k, c, GenDSrcB(c.d)); }
    OperandsSuffice(c, Run(s0, k.D()));
  }

  lemma OperandsSuffice(c: Clocked, s: State)
    requires c.d == DOf(s)
    requires GenDSrcA(c.d) != REG_NONE ==>
      Forward(GenDSrcA(c.d), MNext(c), c.m, WNext(c), c.w, GetReg(c.reg, GenDSrcA(c.d))) == GetReg(s.r, GenDSrcA(c.d))
    requires GenDSrcB(c.d) != REG_NONE ==>
      Forward(GenDSrcB(c.d), MNext(c), c.m, WNext(c), c.w, GetReg(c.reg, GenDSrcB(c.d))) == GetReg(s.r, GenDSrcB(c.d))
    ensures HoldsE(ENext(c), s)
  {
    hide StepState, FetchAt, WNext, MNext, Forward, GetReg;
  }

  /** The instruction fetched on the right path is the next one of the ISA run. */
  lemma FetchHolds(s0: State, k: Occ, c: Clocked)
    requires Live(s0, k, c) && !Stalls(Pairs(s0), k)
    requires NextOcc(Flows(s0), Pairs(s0), k).d == Right
    ensures DNext(c) == DOf(Run(s0, k.F()))
  {
    hide StepState, FetchAt, Supported, Run, IdleE, IdleD, ENext, WNext, MNext, NextOcc, Shape, Stalls, ComputeAlu, GetReg;
    FetchSituations(Flows(s0), Pairs(s0), k);
    FetchesNextPc(s0, k, c);
    assert GoodAt(s0, k.F());
  }

  lemma FetchesNextPc(s0: State, k: Occ, c: Clocked)
    requires Live(s0, k, c) && CanFetch(Flows(s0), k)
    ensures GenFPc(c.f, c.m, c.w) == Run(s0, k.F()).pc
  {
    hide StepState, FetchAt, Supported, Run, IdleE, IdleD, ENext, WNext, MNext, NextOcc, Stalls, ComputeAlu, GetReg;
    if k.F() > 0 {
      SlotMoves(s0, Right, k.F() - 1);
      StagesImplementStep(Run(s0, k.F() - 1));
    }
  }

  lemma EdgeRegisters(c: Clocked)
    ensures Cycle(c).f == Latch(FOp(c), c.f, PcStage(DNext(c)), BUBBLE_PC)
    ensures Cycle(c).d == Latch(DOp(c), c.d, DNext(c), BUBBLE_IF_ID)
    ensures Cycle(c).e == Latch(EOp(c), c.e, ENext(c), BUBBLE_ID_EX)
  {
    hide WriteBack, MemWrite, CcNext, DNext, ENext, MNext, WNext, PcStage, FOp, DOp, EOp, MOp, WOp;
  }

  lemma NextSlots(s0: State, k: Occ)
    ensures var k' := NextOcc(Flows(s0), Pairs(s0), k);
      && k'.a == k.B() && k'.w == k.m && k'.B() == k.C()
      && k'.m == (if Halting(s0, k) then Bubble else k.e)
      && (Halting(s0, k) ==> k'.e == k'.d == Wrong)
      && (Stalls(Pairs(s0), k) ==> k.d == Right)
      && (!Halting(s0, k) ==> k'.C() == k.D())
      && (!Halting(s0, k) && Stalls(Pairs(s0), k) ==> k'.e == Bubble && k'.d == Right && k'.D() == k.D())
      && (!Halting(s0, k) && !Stalls(Pairs(s0), k) ==>
            && k'.e == (if k.e == Right && Flows(s0)(k.C()) == Mispredicts then Bubble else k.d)
            && (k'.d == Bubble <==> (k.e == Right && Flows(s0)(k.C()) == Mispredicts) || ReturnPending(Flows(s0), k)))
  {
    hide FlowOf, LoadUsePair, Run;
  }

  lemma DecodeAdvances(s0: State, k: Occ, c: Clocked)
    requires Live(s0, k, c)
    ensures var k' := NextOcc(Flows(s0), Pairs(s0), k);
      && (k'.e == Right ==> HoldsE(Cycle(c).e, Run(s0, k'.C())))
      && (k'.e == Bubble ==> IdleE(Cycle(c).e))
  {
    hide StepState, FetchAt, Supported, Run, Cycle, NextOcc, Shape, HoldsM, HoldsE, HoldsF, IdleM, IdleW, Forward, MNext, WNext, GetReg, LoadUse, Mispredicted, Halting, Stalls;
    NextSlots(s0, k);
    if !Halting(s0, k) {
      EdgeRegisters(c);
      LoadUseIsScheduled(s0, k, c);
      RedirectsAreScheduled(s0, k, c);
      if k.d == Right && !Stalls(Pairs(s0), k) { DecodeHolds(s0, k, c); }
    }
  }

  /** A wrong-path instruction in D is either squashed in this cycle or younger than a halt. */
  lemma WrongDecodeIsSquashed(s0: State, k: Occ)
    requires Shape(Flows(s0), k) && !Halted(Flows(s0), k) && k.d == Wrong && !Halting(s0, k)
    ensures (k.e == Right && Flows(s0)(k.C()) == Mispredicts) || NextOcc(Flows(s0), Pairs(s0), k).d == Wrong
  {
    hide FlowOf, Run;
  }

  lemma FetchRegisterAdvances(s0: State, k: Occ, c: Clocked)
    requires Live(s0, k, c)
    ensures var k' := NextOcc(Flows(s0), Pairs(s0), k);
      && (k'.d == Right ==> Cycle(c).d == DOf(Run(s0, k'.D())))
      && (k'.d == Bubble ==> IdleD(Cycle(c).d))
  {
    hide StepState, FetchAt, Supported, Run, Cycle, NextOcc, Shape, HoldsM, HoldsE, HoldsF, IdleM, IdleW, MNext, ENext, DNext, RetPending, PcStage, Halting, Stalls, ReturnPending, CanFetch;
    var k' := NextOcc(Flows(s0), Pairs(s0), k);
    NextSlots(s0, k);
    if k.d == Wrong && !Halting(s0, k) { WrongDecodeIsSquashed(s0, k); }
    if !Halting(s0, k) {
      EdgeRegisters(c);
      LoadUseIsScheduled(s0, k, c);
      RedirectsAreScheduled(s0, k, c);
      if Stalls(Pairs(s0), k) {
        assert Cycle(c).d == c.d;
      } else if k'.d == Right {
        assert Cycle(c).d == DNext(c);
        FetchHolds(s0, k, c);
        FetchSituations(Flows(s0), Pairs(s0), k);
      } else if k'.d == Bubble {
        assert Cycle(c).d == BUBBLE_IF_ID;
      }
    }
  }

  lemma StallKeepsPrediction(s0: State, k: Occ, c: Clocked)
    requires Live(s0, k, c) && Stalls(Pairs(s0), k)
    ensures HoldsF(s0, NextOcc(Flows(s0), Pairs(s0), k).F(), Cycle(c))
  {
    hide StepState, FetchAt, Supported, Run, Cycle, NextOcc, HoldsM, HoldsE, HoldsF, IdleM, IdleW, IdleE, IdleD, ENext, DNext, MNext, LoadUse, RetPending, PcStage;
    EdgeRegisters(c);
    NextSlots(s0, k);
    LoadUseIsScheduled(s0, k, c);
    assert Cycle(c).f == c.f;
    assert HoldsF(s0, k.F(), c);
    SameFetchPc(s0, k.F(), c, Cycle(c));
  }

  lemma SameFetchPc(s0: State, next: nat, c: Clocked, c': Clocked)
    requires HoldsF(s0, next, c) && c'.f == c.f
    ensures HoldsF(s0, next, c')
  {
    hide Run, Flows;
  }

  lemma FetchPredicts(s0: State, k: Occ, c: Clocked)
    requires Live(s0, k, c) && !Stalls(Pairs(s0), k)
    requires NextOcc(Flows(s0), Pairs(s0), k).d == Right
    ensures HoldsF(s0, NextOcc(Flows(s0), Pairs(s0), k).F(), Cycle(c))
  {
    hide Run, Cycle, NextOcc, Stalls, Shape, CanFetch, Holds, DNext, DOf, FlowOf, GenFPredPc, GoodProgram, Halted, Pairs;
    FetchHolds(s0, k, c);
    FetchSituations(Flows(s0), Pairs(s0), k);
    FetchNotStalled(s0, k, c);
    PlainPrediction(s0, k.F());
    assert NextOcc(Flows(s0), Pairs(s0), k).F() == k.F() + 1;
  }

  lemma PlainPrediction(s0: State, i: nat)
    requires GoodProgram(s0)
    ensures FlowOf(Run(s0, i)) == Plain ==> Run(s0, i + 1).pc == GenFPredPc(DOf(Run(s0, i)))
  {
    hide StepState, FetchAt, Supported, WOf, MOf, EOf;
    assert GoodAt(s0, i);
    StagesImplementStep(Run(s0, i));
  }

  lemma FetchIsWanted(flow: nat -> Flow, pair: nat -> bool, k: Occ)
    requires Shape(flow, k) && !Halted(flow, k) && !Stalls(pair, k) && NextOcc(flow, pair, k).d == Right
    ensures k.d != Wrong && !ReturnPending(flow, k) && (k.m == Right ==> flow(k.B()) != Halts)
  {
    hide Shape, Halted, Stalls, NextOcc, ReturnPending, OffPath;
    FetchMeans(flow, pair, k);
    FetchSituations(flow, pair, k);
  }

  lemma FetchLoads(c: Clocked)
    requires !LoadUse(c.e, ENext(c)) && !RetPending(c.d, c.e, c.m)
    ensures FOp(c) == PLoad
  {
    hide LoadUse, RetPending, ENext;
  }

  lemma FetchNotStalled(s0: State, k: Occ, c: Clocked)
    requires Live(s0, k, c) && !Stalls(Pairs(s0), k)
    requires NextOcc(Flows(s0), Pairs(s0), k).d == Right
    ensures Cycle(c).f == PcStage(DNext(c))
  {
    hide StepState, FetchAt, Supported, Run, Cycle, Holds, GoodProgram, Shape, Halted, NextOcc, Stalls, ReturnPending,
      ENext, DNext, MNext, WNext, LoadUse, RetPending, PcStage, FOp, DOp, EOp, Mispredicted;
    FetchIsWanted(Flows(s0), Pairs(s0), k);
    EdgeRegisters(c);
    LoadUseIsScheduled(s0, k, c);
    RedirectsAreScheduled(s0, k, c);
    FetchLoads(c);
  }

  lemma PredictionAdvances(s0: State, k: Occ, c: Clocked)
    requires Live(s0, k, c)
    ensures HoldsF(s0, NextOcc(Flows(s0), Pairs(s0), k).F(), Cycle(c))
  {
    hide StepState, FetchAt, Supported, Run, Cycle, Holds, NextOcc, Shape, Stalls;
    ShapeIsKept(Flows(s0), Pairs(s0), k);
    if Stalls(Pairs(s0), k) {
      StallKeepsPrediction(s0, k, c);
    } else if NextOcc(Flows(s0), Pairs(s0), k).d == Right {
      FetchPredicts(s0, k, c);
    } else {
      LagGrows(Flows(s0), Pairs(s0), k);
      IdleDecodeMeansRedirect(Flows(s0), NextOcc(Flows(s0), Pairs(s0), k));
    }
  }

  /** One clock edge keeps the correspondence with the ISA run. */
  lemma CycleKeepsHolds(s0: State, k: Occ, c: Clocked)
    requires Live(s0, k, c)
    ensures Shape(Flows(s0), NextOcc(Flows(s0), Pairs(s0), k))
    ensures Holds(s0, NextOcc(Flows(s0), Pairs(s0), k), Cycle(c))
  {
    hide StepState, FetchAt, Supported, Run, Cycle, NextOcc, Shape, HoldsM, HoldsE, HoldsF, IdleE, IdleD, IdleW, WNext, WOf;
    ShapeIsKept(Flows(s0), Pairs(s0), k);
    NextSlots(s0, k);
    RegistersAdvance(s0, k, c);
    MemoryAdvances(s0, k, c);
    ExecuteAdvances(s0, k, c);
    DecodeAdvances(s0, k, c);
    FetchRegisterAdvances(s0, k, c);
    PredictionAdvances(s0, k, c);
    HaltEndsExecute(s0, k);
    if !Halting(s0, k) { NoPairInside(Flows(s0), k); }
  }

  lemma HaltEndsExecute(s0: State, k: Occ)
    requires Shape(Flows(s0), k)
    ensures Halting(s0, k) ==> k.e != Right
  {
  }

  // ---------- Whole runs ----------

  lemma StartsAtZero(s0: State)
    requires GoodProgram(s0)
    ensures s0.pc == 0
  {
  }

  lemma StartsWith(s0: State)
    ensures Run(s0, 0) == s0
  {
    hide After;
  }

  lemma EmptyIsShaped(flow: nat -> Flow)
    ensures Shape(flow, EMPTY)
  {
  }

  /** The state that reset leaves: the given registers and memory, and bubbles everywhere. */
  lemma ResetIs(s: State)
    ensures var c := Reset(s);
      && c.reg == s.r && c.mem == s.m && c.cc == s.cc && c.f.pc == 0
      && IdleW(c.w) && IdleM(c.m) && IdleE(c.e) && IdleD(c.d)
  {
    hide StepState, FetchAt;
  }

  lemma EmptyOcc()
    ensures EMPTY.a == EMPTY.B() == EMPTY.C() == EMPTY.D() == EMPTY.F() == 0
    ensures EMPTY.w == EMPTY.m == EMPTY.e == EMPTY.d == Bubble
  {
  }

  /** Fetching starts at the first instruction. */
  lemma NothingFetched(s0: State)
    requires s0.pc == 0
    ensures HoldsF(s0, 0, Reset(s0))
  {
    hide After, Flows, StepState, FetchAt, Run;
    StartsWith(s0);
  }

  /** With bubbles everywhere only the visible state and the fetch address matter. */
  lemma HoldsOf(s0: State, k: Occ, c: Clocked)
    requires k.w == k.m == k.e == k.d == Bubble
    requires c.reg == Run(s0, k.a).r && c.mem == Run(s0, k.B()).m && c.cc == Run(s0, k.C()).cc
    requires IdleW(c.w) && IdleM(c.m) && IdleE(c.e) && IdleD(c.d) && HoldsF(s0, k.F(), c)
    ensures Holds(s0, k, c)
  {
    hide Run, IdleW, IdleM, IdleE, IdleD, HoldsF, HoldsM, HoldsE, WOf, DOf, Occ.B, Occ.C, Occ.D, Occ.F;
  }

  lemma EmptyHolds(s0: State)
    requires s0.pc == 0
    ensures Holds(s0, EMPTY, Reset(s0))
  {
    hide *;
    StartsWith(s0);
    ResetIs(s0);
    EmptyOcc();
    NothingFetched(s0);
    HoldsOf(s0, EMPTY, Reset(s0));
  }

  lemma ResetCorresponds(s0: State)
    requires s0.pc == 0
    ensures Shape(Flows(s0), EMPTY) && Holds(s0, EMPTY, Reset(s0))
  {
    hide *;
    EmptyIsShaped(Flows(s0));
    EmptyHolds(s0);
  }

  ghost function OccAt(s0: State, t: nat): Occ { Schedule(Flows(s0), Pairs(s0), t) }

  /**
    Every reachable cycle, of terminating and non-terminating programs alike: what the
    pipeline stores is what the ISA run prescribes for the scheduled occupancy.
   */
  lemma {:induction false} EveryCycleCorresponds(s0: State, t: nat)
    requires GoodProgram(s0)
    requires forall u: nat :: u < t ==> !Halted(Flows(s0), OccAt(s0, u))
    ensures Shape(Flows(s0), OccAt(s0, t))
    ensures Holds(s0, OccAt(s0, t), Cycles(Reset(s0), t))
  {
    hide GoodProgram, Shape, Holds, Halted, Cycle, NextOcc, Reset, Flows, Pairs;
    if t == 0 {
      StartsAtZero(s0);
      ResetCorresponds(s0);
    } else {
      EveryCycleCorresponds(s0, t - 1);
      assert !Halted(Flows(s0), OccAt(s0, t - 1));
      CycleKeepsHolds(s0, OccAt(s0, t - 1), Cycles(Reset(s0), t - 1));
    }
  }

  /** step_state runs n instructions, the last one being the halt. */
  ghost predicate HaltsAfter(s0: State, n: nat) {
    && n > 0
    && (forall i: nat :: i < n - 1 ==> StepState(Run(s0, i)).1 == Aok)
    && StepState(Run(s0, n - 1)).1 == Hlt
  }

  lemma {:induction false} HaltedRunStays(s0: State, n: nat, i: nat)
    requires HaltsAfter(s0, n) && Supported(Run(s0, n - 1)) && n - 1 <= i
    ensures Run(s0, i) == Run(s0, n - 1)
  {
    hide StepState, FetchAt, Supported, WOf, MOf, EOf;
    if i > n - 1 {
      HaltedRunStays(s0, n, i - 1);
      HaltIsHlt(Run(s0, n - 1));
      StagesImplementStep(Run(s0, n - 1));
    }
  }

  lemma HaltIsHlt(s: State)
    requires Supported(s)
    ensures StepState(s).1 == Hlt <==> IsHalt(s)
  {
    FetchIsIsaDecode(s);
  }

  lemma GoodUpToHalt(s0: State, n: nat)
    requires s0.pc == 0 && HaltsAfter(s0, n) && forall i: nat :: i < n ==> GoodAt(s0, i)
    ensures GoodProgram(s0)
  {
    hide StepState, FetchAt, Supported, Run;
    assert GoodAt(s0, n - 1);
    forall i: nat | n <= i ensures GoodAt(s0, i) {
      HaltedRunStays(s0, n, i);
      forall j: nat | i - 3 <= j < i
        ensures FetchAt(Run(s0, j).m, Run(s0, i).pc) == DOf(Run(s0, i))
      {
        if n - 1 <= j { HaltedRunStays(s0, n, j); }
      }
    }
  }

  lemma FlowOfRun(s0: State, i: nat)
    requires GoodProgram(s0)
    ensures StepState(Run(s0, i)).1 == Hlt <==> Flows(s0)(i) == Halts
    ensures StepState(Run(s0, i)).1 in {Hlt, Aok}
    ensures Pairs(s0)(i) ==> Flows(s0)(i) == Plain
  {
    hide StepState, FetchAt, Run, EOf;
    GoodIsSupported(s0, i);
    HaltIsHlt(Run(s0, i));
    if Pairs(s0)(i) { LoadsArePlain(Run(s0, i), Run(s0, i + 1)); }
  }

  lemma RunIsSchedulable(s0: State, n: nat)
    requires GoodProgram(s0) && HaltsAfter(s0, n)
    ensures PairsArePlain(Flows(s0), Pairs(s0))
    ensures FirstHalt(Flows(s0), n - 1)
  {
    hide StepState, Run, GoodProgram, Flows, Pairs;
    forall i: nat
      ensures Pairs(s0)(i) ==> Flows(s0)(i) == Plain
      ensures i < n - 1 ==> Flows(s0)(i) != Halts
      ensures i == n - 1 ==> Flows(s0)(i) == Halts
    {
      FlowOfRun(s0, i);
    }
  }

  lemma GoodIsSupported(s0: State, i: nat)
    requires GoodProgram(s0)
    ensures Supported(Run(s0, i))
  {
    hide Supported, Run;
    assert GoodAt(s0, i);
  }

  lemma LoadsArePlain(s: State, s': State)
    requires LoadUsePair(s, s')
    ensures FlowOf(s) == Plain
  {
    hide FetchAt;
  }

  /** Cycles the pipeline loses to load/use stalls, mispredicted jumps and returns. */
  ghost function LostCycles(s0: State, n: nat): nat { Lost(Flows(s0), Pairs(s0), n) }

  /**
    The pipeline implements the ISA: when step_state reaches the halt as its n-th instruction,
    the pipeline has that halt in write-back after exactly n + 3 + LostCycles clock edges and
    not earlier, with the registers, memory and condition codes of the ISA run.
   */
  lemma PipelineImplementsIsa(s0: State, n: nat)
    requires s0.pc == 0 && HaltsAfter(s0, n) && forall i: nat :: i < n ==> GoodAt(s0, i)
    ensures LostCycles(s0, n - 1) <= 3 * (n - 1)
    ensures var end := Cycles(Reset(s0), n + 3 + LostCycles(s0, n - 1));
      && end.w.status == Hlt
      && end.reg == Run(s0, n - 1).r && end.mem == Run(s0, n - 1).m && end.cc == Run(s0, n - 1).cc
    ensures forall t: nat :: t < n + 3 + LostCycles(s0, n - 1) ==> GenStat(Cycles(Reset(s0), t).w) == Aok
  {
    hide GoodAt, GoodProgram, HaltsAfter, Run, Cycles, Holds, Shape, Halted, OccAt, Reset, GenStat, Lost;
    GoodUpToHalt(s0, n);
    LostIsBounded(s0, n);
    var end := n + 3 + LostCycles(s0, n - 1);
    HaltsOnTime(s0, n, end);
    EndState(s0, n, OccAt(s0, end), Cycles(Reset(s0), end));
    forall t: nat | t < end ensures GenStat(Cycles(Reset(s0), t).w) == Aok {
      HaltsOnTime(s0, n, t);
      WriteBackStatus(s0, OccAt(s0, t), Cycles(Reset(s0), t));
    }
  }

  /** The edge that moves a slot from M to W, seen from the occupancy counts. */
  lemma EdgeCounts(s0: State, t: nat)
    ensures OccAt(s0, t + 1).a == OccAt(s0, t).B() && OccAt(s0, t + 1).B() == OccAt(s0, t).C()
  {
    hide NextOcc, Halting, Stalls, Flows, Pairs;
    NextSlots(s0, OccAt(s0, t));
  }

  lemma VisibleState(s0: State, k: Occ, c: Clocked)
    requires Holds(s0, k, c)
    ensures c.reg == Run(s0, k.a).r && c.mem == Run(s0, k.B()).m && c.cc == Run(s0, k.C()).cc
  {
    hide Run, HoldsF, HoldsE, HoldsM, WOf, DOf, IdleW, IdleM, IdleE, IdleD;
  }

  lemma VisibleAt(s0: State, n: nat, t: nat)
    requires GoodProgram(s0) && HaltsAfter(s0, n) && t <= n + 3 + LostCycles(s0, n - 1)
    ensures Cycles(Reset(s0), t).mem == Run(s0, OccAt(s0, t).B()).m
    ensures Cycles(Reset(s0), t).cc == Run(s0, OccAt(s0, t).C()).cc
  {
    hide *;
    HaltsOnTime(s0, n, t);
    VisibleState(s0, OccAt(s0, t), Cycles(Reset(s0), t));
  }

  lemma SomeInstruction(s0: State, n: nat)
    requires HaltsAfter(s0, n)
    ensures n > 0
  {
    hide StepState, Run;
  }

  lemma CountsGrow(k: Occ)
    ensures k.C() >= k.B()
  {
  }

  /** When the halt is in M or in E, memory and condition codes are already final. */
  lemma LastEdges(s0: State, n: nat)
    requires GoodProgram(s0) && HaltsAfter(s0, n)
    ensures var end := n + 3 + LostCycles(s0, n - 1);
      && Cycles(Reset(s0), end - 1).mem == Run(s0, n - 1).m
      && Cycles(Reset(s0), end - 1).cc == Run(s0, n - 1).cc == Cycles(Reset(s0), end - 2).cc
  {
    hide *;
    SomeInstruction(s0, n);
    var end := n + 3 + LostCycles(s0, n - 1);
    GoodIsSupported(s0, n - 1);
    HaltsOnTime(s0, n, end);
    VisibleAt(s0, n, end - 1);
    VisibleAt(s0, n, end - 2);
    EdgeCounts(s0, end - 1);
    EdgeCounts(s0, end - 2);
    CountsGrow(OccAt(s0, end - 1));
    HaltedRunStays(s0, n, OccAt(s0, end - 1).C());
  }

  lemma {:induction false} LostIsBounded(s0: State, n: nat)
    requires GoodProgram(s0) && HaltsAfter(s0, n)
    ensures LostCycles(s0, n - 1) <= 3 * (n - 1)
  {
    hide StepState, Run, GoodProgram, Flows, Pairs, Lost, Leaves;
    RunIsSchedulable(s0, n);
    LeavesCounts(Flows(s0), Pairs(s0), n - 1);
  }

  /** With the halt in W, every stage behind it reflects the final ISA state. */
  lemma EndState(s0: State, n: nat, k: Occ, c: Clocked)
    requires GoodProgram(s0) && HaltsAfter(s0, n) && k.a == n - 1
    requires Shape(Flows(s0), k) && Halted(Flows(s0), k) && Holds(s0, k, c)
    ensures c.w.status == Hlt
    ensures c.reg == Run(s0, n - 1).r && c.mem == Run(s0, n - 1).m && c.cc == Run(s0, n - 1).cc
  {
    hide StepState, FetchAt, Supported, Run, WOf, HoldsM, HoldsE, HoldsF, IdleD, IdleE, IdleM, IdleW;
    WriteBackStatus(s0, k, c);
    GoodIsSupported(s0, n - 1);
    HaltedRunStays(s0, n, k.B());
    HaltedRunStays(s0, n, k.C());
  }

  lemma HaltsOnTime(s0: State, n: nat, t: nat)
    requires GoodProgram(s0) && HaltsAfter(s0, n) && t <= n + 3 + LostCycles(s0, n - 1)
    ensures Shape(Flows(s0), OccAt(s0, t)) && Holds(s0, OccAt(s0, t), Cycles(Reset(s0), t))
    ensures Halted(Flows(s0), OccAt(s0, t)) <==> t == n + 3 + LostCycles(s0, n - 1)
    ensures Halted(Flows(s0), OccAt(s0, t)) ==> OccAt(s0, t).a == n - 1
  {
    hide StepState, FetchAt, Supported, Run, Cycle, NextOcc, Holds, Leaves, Lost, Shape, Halted, Schedule;
    var flow, pair := Flows(s0), Pairs(s0);
    RunIsSchedulable(s0, n);
    LeavesCounts(flow, pair, n - 1);
    forall u: nat | u <= t
      ensures Halted(flow, OccAt(s0, u)) <==> u == n + 3 + LostCycles(s0, n - 1)
      ensures Halted(flow, OccAt(s0, u)) ==> OccAt(s0, u).a == n - 1
    {
      ScheduleIsOnTime(flow, pair, n - 1, u);
      HaltTime(flow, pair, n - 1, OccAt(s0, u));
    }
    EveryCycleCorresponds(s0, t);
  }

  lemma WriteBackStatus(s0: State, k: Occ, c: Clocked)
    requires GoodProgram(s0) && Shape(Flows(s0), k) && Holds(s0, k, c)
    ensures GenStat(c.w) == if Halted(Flows(s0), k) then Hlt else Aok
  {
    hide StepState, FetchAt, Supported, Run, WOf, HoldsM, HoldsE, HoldsF;
    if k.w == Right {
      assert GoodAt(s0, k.a);
      StagesImplementStep(Run(s0, k.a));
    }
  }

  // ---------- Programs that qualify ----------

  /** One byte each, and eight more so that the last one is away from the end of the largest memory. */
  const MOST_NOPS: nat := 0x8000_0000 - 8

  /** n - 1 nops and a halt. */
  function Nops(n: nat): (m: Mem)
    requires 0 < n < MOST_NOPS
    ensures |m| == n + 8 && forall i :: 0 <= i < |m| ==> m[i] == if i < n - 1 then 16 else 0
  {
    seq(n + 8, i => if i < n - 1 then 16 else 0)
  }

  lemma NopAdvances(s: State, n: nat)
    requires 0 < n < MOST_NOPS && s.m == Nops(n) && 0 <= s.pc < n
    ensures StepState(s) == if s.pc < n - 1 then (s.(pc := s.pc + 1), Aok) else (s, Hlt)
    ensures Supported(s)
  {
    hide Nops;
  }

  lemma {:induction false} NopRun(s0: State, n: nat, i: nat)
    requires 0 < n < MOST_NOPS && s0.m == Nops(n) && s0.pc == 0 && i < n
    ensures Run(s0, i) == s0.(pc := i)
  {
    hide StepState, Supported, Nops;
    if i > 0 {
      NopRun(s0, n, i - 1);
      NopAdvances(s0.(pc := i - 1), n);
    }
  }

  /** The conditions of PipelineImplementsIsa can be met for every number of instructions that a memory can hold. */
  lemma NopsQualify(s0: State, n: nat)
    requires 0 < n < MOST_NOPS && s0.m == Nops(n) && s0.pc == 0
    ensures HaltsAfter(s0, n) && forall i: nat :: i < n ==> GoodAt(s0, i)
  {
    hide StepState, Supported, Nops, Run, FetchAt;
    forall i: nat | i < n
      ensures i < n - 1 ==> StepState(Run(s0, i)).1 == Aok
      ensures i == n - 1 ==> StepState(Run(s0, i)).1 == Hlt
      ensures GoodAt(s0, i)
    {
      NopRun(s0, n, i);
      NopAdvances(Run(s0, i), n);
      forall j: nat | i - 3 <= j < i ensures FetchAt(Run(s0, j).m, Run(s0, i).pc) == DOf(Run(s0, i)) {
        NopRun(s0, n, j);
      }
    }
  }
}

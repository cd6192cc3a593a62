/**
  Runs that a limit may end.  Close to the limit sim_step_pipe withholds memory and condition-code
  updates of instructions that are not to complete any more; what the two simulators then show is
  compared exactly.
 */
module PipeLimit {
  import opened Bytes
  import opened Y86Isa
  import opened PipeStd
  import opened PipeMachine
  import opened PipeContents
  import opened PipeSchedule
  import opened PipeCorrect

  /** The state in which both simulators start: a memory image, and everything else reset. */
  function Loaded(image: Mem): State { State(0, seq(15, _ => 0), image, DEFAULT_CC) }

  // ---------- One step under a limit ----------

  /** The clocked state, what is pending, and how many instructions are ahead of those in M and in E. */
  datatype Machine = Machine(clk: Clocked, pend: Clocked, aheadMem: nat, aheadEx: nat)

  /** CcNext of a cycle that starts with other condition codes pending than those in force. */
  function CcAfter(c: Clocked, pending: CC): CC {
    if GenSetCc(c.e, WNext(c), c.w) then ExCc(c.e) else pending
  }

  function Busy(w: MemWb): nat { if w.status != Bub then 1 else 0 }

  /** The pending updates without those that `left` more instructions do not allow. */
  function Gate(mc: Machine, left: int): Clocked {
    mc.pend.(mem := if mc.aheadMem < left then mc.pend.mem else mc.clk.mem,
             cc := if mc.aheadEx < left then mc.pend.cc else mc.clk.cc)
  }

  /** sim_step_pipe: withheld condition codes stay pending. */
  function Step(mc: Machine, left: int): Machine {
    var c := Gate(mc, left);
    Machine(c, Cycle(c).(cc := CcAfter(c, mc.pend.cc)), Busy(c.w), Busy(c.w) + Busy(WNext(c)))
  }

  /** t steps towards the limit. */
  function Steps(mc: Machine, limit: int, t: nat): Machine {
    if t == 0 then mc else Step(Steps(mc, limit, t - 1), limit - (t - 1))
  }

  /** Nothing is on its way, and the pending state shows what the clocked one does. */
  predicate Idle(mc: Machine) {
    && mc.aheadMem == mc.aheadEx == 0
    && mc.clk.reg == mc.pend.reg && mc.clk.mem == mc.pend.mem && mc.clk.cc == mc.pend.cc
  }

  lemma NothingWithheld(c: Clocked)
    ensures Cycle(c).(cc := CcAfter(c, c.cc)) == Cycle(c)
  {
    hide WriteBack, MemWrite, WNext, DNext, ENext, MNext, FOp, DOp, EOp, MOp, WOp, ExCc, GenSetCc, Latch;
  }

  /** The machine when nothing has been withheld so far. */
  ghost predicate Ungated(mc: Machine, c0: Clocked, t: nat) {
    && mc.pend == Cycles(c0, t)
    && (t > 0 ==>
          var c := Cycles(c0, t - 1);
          mc.clk == c && mc.aheadMem == Busy(c.w) && mc.aheadEx == Busy(c.w) + Busy(WNext(c)))
  }

  lemma UngatedStep(mc: Machine, c0: Clocked, t: nat, left: int)
    requires Ungated(mc, c0, t) && Gate(mc, left) == mc.pend
    ensures Ungated(Step(mc, left), c0, t + 1)
  {
    hide Cycle, CcAfter, WNext, Gate;
    NothingWithheld(mc.pend);
  }

  lemma FarIsUngated(mc: Machine, left: int)
    requires mc.aheadMem < left && mc.aheadEx < left
    ensures Gate(mc, left) == mc.pend
  {
  }

  lemma AheadIsSmall(mc: Machine, c0: Clocked, t: nat)
    requires Ungated(mc, c0, t) && (t == 0 ==> Idle(mc))
    ensures mc.aheadMem <= 1 && mc.aheadEx <= 2 && (t == 0 ==> mc.aheadEx == 0)
  {
  }

  /** Up to the last two steps before the limit nothing is withheld. */
  lemma {:induction false} FarFromLimit(mc: Machine, limit: int, t: nat)
    requires Idle(mc) && (t > 0 ==> t + 2 <= limit)
    ensures Ungated(Steps(mc, limit, t), mc.pend, t)
  {
    hide Cycle, CcAfter, WNext, Gate, Step;
    if t > 0 {
      FarFromLimit(mc, limit, t - 1);
      var before := Steps(mc, limit, t - 1);
      assert t == 1 ==> before == mc;
      AheadIsSmall(before, mc.pend, t - 1);
      FarIsUngated(before, limit - (t - 1));
      UngatedStep(before, mc.pend, t - 1, limit - (t - 1));
    } else {
      assert Cycles(mc.pend, 0) == mc.pend;
    }
  }

  // ---------- The last two steps ----------

  /** Condition codes have no part in the registers, the memory, the write-back and the next condition codes. */
  lemma OtherFlags(c: Clocked, x: CC, p: CC)
    ensures var d := Cycle(c.(cc := x));
      && d.reg == Cycle(c).reg && d.mem == Cycle(c).mem && d.w == Cycle(c).w
      && CcAfter(c.(cc := x), p) == CcAfter(c, p) && WNext(c.(cc := x)) == WNext(c)
  {
    hide WriteBack, MemWrite, MemStage, ExCc, GenSetCc, Latch, FOp, DOp, EOp, MOp, PcStage, DNext, ENext, MNext;
  }

  lemma CcIsAfter(c: Clocked)
    ensures Cycle(c).cc == CcAfter(c, c.cc)
  {
    hide WriteBack, MemWrite, WNext, DNext, ENext, MNext, FOp, DOp, EOp, MOp, WOp, ExCc, GenSetCc, Latch;
  }

  /** What is in W in cycle t, and what comes there next; nothing before the first cycle. */
  function BusyAt(c0: Clocked, t: int): nat { if t < 0 then 0 else Busy(Cycles(c0, t).w) }
  function BusyNext(c0: Clocked, t: int): nat { if t < 0 then 0 else Busy(WNext(Cycles(c0, t))) }

  /** The state in cycle t; before the first cycle it shows the same. */
  function At(c0: Clocked, t: int): Clocked { if t < 0 then c0 else Cycles(c0, t) }

  /** The condition codes when the limit has been reached. */
  function LastFlags(c0: Clocked, limit: int): CC {
    if BusyAt(c0, limit - 2) + BusyNext(c0, limit - 2) == 0 then At(c0, limit - 1).cc
    else if BusyAt(c0, limit - 3) + BusyNext(c0, limit - 3) == 2 then At(c0, limit - 3).cc
    else At(c0, limit - 2).cc
  }

  lemma BeforeLast(mc: Machine, limit: int)
    requires Idle(mc) && limit >= 2
    ensures var s := Steps(mc, limit, limit - 1); var c := Cycles(mc.pend, limit - 2);
      && s.clk == c.(cc := if BusyAt(mc.pend, limit - 3) + BusyNext(mc.pend, limit - 3) == 2 then At(mc.pend, limit - 3).cc else c.cc)
      && s.pend == Cycle(s.clk).(cc := CcAfter(c, c.cc)) && s.aheadMem == Busy(c.w) && s.aheadEx == Busy(c.w) + Busy(WNext(c))
  {
    hide Cycle, CcAfter, WNext;
    FarFromLimit(mc, limit, limit - 2);
    var before := Steps(mc, limit, limit - 2);
    if limit > 2 { assert At(mc.pend, limit - 3) == before.clk; } else { assert before == mc; }
    OtherFlags(Cycles(mc.pend, limit - 2), Gate(before, 2).cc, before.pend.cc);
  }

  /** When the limit is reached: all registers are written, and memory and flags may be behind. */
  lemma LimitReached(mc: Machine, limit: int)
    requires Idle(mc) && limit >= 1
    ensures var c := Steps(mc, limit, limit).clk;
      && c.reg == Cycles(mc.pend, limit - 1).reg && c.w == Cycles(mc.pend, limit - 1).w
      && c.mem == At(mc.pend, if BusyAt(mc.pend, limit - 2) == 1 then limit - 2 else limit - 1).mem
      && c.cc == LastFlags(mc.pend, limit)
  {
    hide Cycle, CcAfter, WNext;
    var before := Steps(mc, limit, limit - 1);
    if limit == 1 {
      assert before == mc;
      assert Cycles(mc.pend, 0) == mc.pend;
    } else {
      BeforeLast(mc, limit);
      var c := Cycles(mc.pend, limit - 2);
      assert Cycles(mc.pend, limit - 1) == Cycle(c);
      OtherFlags(c, before.clk.cc, c.cc);
      CcIsAfter(c);
    }
  }

  // ---------- A run that ends with an exception ----------

  /** The two edges before cycle stop leave the condition codes alone, the last one also memory. */
  ghost predicate Quiet(c0: Clocked, stop: nat)
    requires stop >= 2
  {
    && Cycles(c0, stop).mem == Cycles(c0, stop - 1).mem
    && Cycles(c0, stop).cc == Cycles(c0, stop - 1).cc == Cycles(c0, stop - 2).cc
  }

  /** Far enough from the limit, or in quiet cycles, withholding updates changes nothing. */
  lemma {:induction false} QuietSteps(mc: Machine, limit: int, stop: nat, t: nat)
    requires Idle(mc) && 2 <= stop < limit && t <= stop + 1 && Quiet(mc.pend, stop)
    ensures Ungated(Steps(mc, limit, t), mc.pend, t)
  {
    hide Cycle, CcAfter, WNext, Step, Cycles;
    if t > 0 {
      QuietSteps(mc, limit, stop, t - 1);
      var before := Steps(mc, limit, t - 1);
      assert t == 1 ==> before == mc;
      AheadIsSmall(before, mc.pend, t - 1);
      QuietGate(before, mc.pend, limit - (t - 1), stop, t - 1);
      UngatedStep(before, mc.pend, t - 1, limit - (t - 1));
    } else {
      CyclesBegin(mc.pend);
    }
  }

  lemma CyclesBegin(c0: Clocked)
    ensures Cycles(c0, 0) == c0
  {
  }

  lemma QuietGate(mc: Machine, c0: Clocked, left: int, stop: nat, t: nat)
    requires 2 <= stop && t <= stop && stop - t < left && Ungated(mc, c0, t) && Quiet(c0, stop)
    requires mc.aheadMem <= 1 && mc.aheadEx <= 2
    ensures Gate(mc, left) == mc.pend
  {
    hide Cycles, WNext;
  }

  // ---------- What the limit leaves of a program ----------

  /** A halt has been in write-back before the limit. */
  ghost predicate HaltedBy(s0: State, limit: int) {
    exists u: nat :: u < limit && Halted(Flows(s0), OccAt(s0, u))
  }

  /** The occupancy of cycle t; before the first cycle there is none. */
  ghost function OccFrom(s0: State, t: int): Occ { if t < 0 then EMPTY else OccAt(s0, t) }

  /** How many instructions have written their registers when the limit is reached. */
  ghost function Written(s0: State, limit: int): nat { OccFrom(s0, limit - 1).a }

  /** How many have written memory: the one in W only if it has just followed a bubble. */
  ghost function Stored(s0: State, limit: int): nat {
    if OccFrom(s0, limit - 2).w == Right then OccFrom(s0, limit - 2).B() else OccFrom(s0, limit - 1).B()
  }

  /** How many have set the condition codes, likewise. */
  ghost function Flagged(s0: State, limit: int): nat {
    if OccFrom(s0, limit - 2).w != Right && OccFrom(s0, limit - 1).w != Right then OccFrom(s0, limit - 1).C()
    else if OccFrom(s0, limit - 3).w == Right && OccFrom(s0, limit - 2).w == Right then OccFrom(s0, limit - 3).C()
    else OccFrom(s0, limit - 2).C()
  }

  /** With instructions in the last cycles' write-backs, the three agree: one ISA state is shown. */
  lemma LimitIsPrecise(s0: State, limit: int)
    requires limit >= 3 && OccAt(s0, limit - 3).w == Right && OccAt(s0, limit - 2).w == Right
    ensures Written(s0, limit) == Stored(s0, limit) == Flagged(s0, limit)
  {
    hide Flows, Pairs, Schedule;
    EdgeCounts(s0, limit - 3);
    EdgeCounts(s0, limit - 2);
  }

  ghost predicate Unhalted(s0: State, t: int) {
    forall u: nat :: u < t ==> !Halted(Flows(s0), OccAt(s0, u))
  }

  lemma UnhaltedBefore(s0: State, limit: int, t: int)
    requires !HaltedBy(s0, limit) && t <= limit
    ensures Unhalted(s0, t)
  {
    hide Flows, OccAt, Halted;
  }

  lemma HoldsAt(s0: State, t: nat)
    requires GoodProgram(s0) && Unhalted(s0, t)
    ensures Shape(Flows(s0), OccAt(s0, t)) && Holds(s0, OccAt(s0, t), Cycles(Reset(s0), t))
  {
    hide Flows, OccAt, Halted, Shape, Holds, Cycles, Reset, GoodProgram;
    EveryCycleCorresponds(s0, t);
  }

  /** What is shown in an unhalted cycle. */
  lemma ShownAt(s0: State, t: nat)
    requires GoodProgram(s0) && Unhalted(s0, t)
    ensures var c, k := Cycles(Reset(s0), t), OccAt(s0, t);
      c.reg == Run(s0, k.a).r && c.mem == Run(s0, k.B()).m && c.cc == Run(s0, k.C()).cc
  {
    hide *;
    HoldsAt(s0, t);
    VisibleState(s0, OccAt(s0, t), Cycles(Reset(s0), t));
  }

  lemma WriteBackIsBusy(s0: State, k: Occ, c: Clocked)
    requires GoodProgram(s0) && Shape(Flows(s0), k) && Holds(s0, k, c)
    ensures Busy(c.w) == One(k.w)
  {
    hide StepState, FetchAt, Supported, Run, WOf, HoldsM, HoldsE, HoldsF;
    if k.w == Right {
      assert GoodAt(s0, k.a);
      StagesImplementStep(Run(s0, k.a));
    }
  }

  lemma BusyNow(s0: State, t: nat)
    requires GoodProgram(s0) && Unhalted(s0, t)
    ensures Busy(Cycles(Reset(s0), t).w) == One(OccAt(s0, t).w)
    ensures GenStat(Cycles(Reset(s0), t).w) == if Halted(Flows(s0), OccAt(s0, t)) then Hlt else Aok
  {
    hide *;
    HoldsAt(s0, t);
    WriteBackIsBusy(s0, OccAt(s0, t), Cycles(Reset(s0), t));
    WriteBackStatus(s0, OccAt(s0, t), Cycles(Reset(s0), t));
  }

  lemma NextWriteBack(c: Clocked)
    requires GenStat(c.w) == Aok
    ensures Cycle(c).w == WNext(c)
  {
    hide WNext, DNext, ENext, MNext, WriteBack, MemWrite, CcNext, FOp, DOp, EOp, MOp;
  }

  lemma NotYet(s0: State, t: nat)
    requires Unhalted(s0, t + 1)
    ensures Unhalted(s0, t) && !Halted(Flows(s0), OccAt(s0, t))
  {
    hide Flows, OccAt, Halted;
  }

  lemma NextCycle(c0: Clocked, t: nat)
    ensures Cycles(c0, t + 1) == Cycle(Cycles(c0, t))
  {
    hide Cycle;
  }

  /** How busy write-back is in an unhalted cycle, and will be in the next one. */
  lemma BusyIsRight(s0: State, t: nat)
    requires GoodProgram(s0) && Unhalted(s0, t + 1)
    ensures Busy(Cycles(Reset(s0), t).w) == One(OccAt(s0, t).w)
    ensures Busy(WNext(Cycles(Reset(s0), t))) == One(OccAt(s0, t + 1).w)
    ensures GenStat(Cycles(Reset(s0), t).w) == Aok
  {
    hide *;
    NotYet(s0, t);
    BusyNow(s0, t);
    BusyNow(s0, t + 1);
    NextCycle(Reset(s0), t);
    NextWriteBack(Cycles(Reset(s0), t));
  }

  lemma FromZero(c0: Clocked, s0: State, t: nat)
    ensures BusyAt(c0, t) == Busy(Cycles(c0, t).w) && BusyNext(c0, t) == Busy(WNext(Cycles(c0, t)))
    ensures OccFrom(s0, t) == OccAt(s0, t) && At(c0, t) == Cycles(c0, t)
  {
    hide Cycles, WNext, OccAt, Busy;
  }

  lemma NothingBefore(c0: Clocked, s0: State, t: int)
    requires t < 0
    ensures BusyAt(c0, t) == BusyNext(c0, t) == 0 && At(c0, t) == c0 && OccFrom(s0, t) == EMPTY
  {
    hide Cycles, WNext, OccAt, Busy;
  }

  lemma FirstIsEmpty(s0: State)
    ensures OccAt(s0, 0) == EMPTY
  {
    hide Flows, Pairs, NextOcc;
  }

  lemma OneIfRight(w: Slot)
    ensures One(w) == if w == Right then 1 else 0
  {
  }

  /** Up to the first cycle nothing is in write-back. */
  lemma BeforeZero(s0: State, t: int)
    requires t < 0
    ensures BusyAt(Reset(s0), t) == BusyNext(Reset(s0), t) == 0 == One(OccFrom(s0, t).w)
    ensures At(Reset(s0), t) == Reset(s0) && OccFrom(s0, t).B() == OccFrom(s0, t).C() == 0
    ensures One(OccFrom(s0, t + 1).w) == 0
  {
    hide *;
    EmptyOcc();
    OneIfRight(Bubble);
    NothingBefore(Reset(s0), s0, t);
    if t + 1 < 0 {
      NothingBefore(Reset(s0), s0, t + 1);
    } else {
      FromZero(Reset(s0), s0, 0);
      FirstIsEmpty(s0);
    }
  }

  lemma BusyBefore(s0: State, limit: int, t: int)
    requires GoodProgram(s0) && !HaltedBy(s0, limit) && t < limit
    ensures BusyAt(Reset(s0), t) == One(OccFrom(s0, t).w) && BusyNext(Reset(s0), t) == One(OccFrom(s0, t + 1).w)
  {
    hide *;
    if t < 0 {
      BeforeZero(s0, t);
    } else {
      UnhaltedBefore(s0, limit, t + 1);
      BusyIsRight(s0, t);
      FromZero(Reset(s0), s0, t);
      FromZero(Reset(s0), s0, t + 1);
    }
  }

  lemma AtIsShown(s0: State, limit: int, t: int)
    requires GoodProgram(s0) && !HaltedBy(s0, limit) && t < limit
    ensures At(Reset(s0), t).mem == Run(s0, OccFrom(s0, t).B()).m && At(Reset(s0), t).cc == Run(s0, OccFrom(s0, t).C()).cc
  {
    hide *;
    if t < 0 {
      BeforeZero(s0, t);
      StartsWith(s0);
      ResetIs(s0);
    } else {
      UnhaltedBefore(s0, limit, t);
      ShownAt(s0, t);
      FromZero(Reset(s0), s0, t);
    }
  }

  /** The registers, memory and condition codes when the limit is reached before any halt. */
  lemma ShownAtLimit(s0: State, mc: Machine, limit: int)
    requires GoodProgram(s0) && Idle(mc) && mc.pend == Reset(s0) && limit >= 1 && !HaltedBy(s0, limit)
    ensures var c := Steps(mc, limit, limit).clk;
      && c.reg == Run(s0, Written(s0, limit)).r && c.mem == Run(s0, Stored(s0, limit)).m && c.cc == Run(s0, Flagged(s0, limit)).cc
  {
    hide GoodProgram, HaltedBy, Reset, Cycles, Run, Steps, Idle, OccAt, OccFrom, At, BusyAt, BusyNext, One, Occ.B, Occ.C;
    LimitReached(mc, limit);
    UnhaltedBefore(s0, limit, limit - 1);
    ShownAt(s0, limit - 1);
    FromZero(Reset(s0), s0, limit - 1);
    BusyBefore(s0, limit, limit - 2);
    BusyBefore(s0, limit, limit - 3);
    AtIsShown(s0, limit, limit - 1);
    AtIsShown(s0, limit, limit - 2);
    AtIsShown(s0, limit, limit - 3);
    OneIfRight(OccFrom(s0, limit - 1).w);
    OneIfRight(OccFrom(s0, limit - 2).w);
    OneIfRight(OccFrom(s0, limit - 3).w);
  }

  lemma UngatedClock(mc: Machine, c0: Clocked, t: nat)
    requires Ungated(mc, c0, t) && t > 0
    ensures mc.clk == Cycles(c0, t - 1)
  {
    hide Cycles, WNext;
  }

  /** Until a limit stops it or a halt is in write-back, no step reports anything but AOK. */
  lemma StatusBeforeHalt(s0: State, mc: Machine, limit: int, t: nat)
    requires GoodProgram(s0) && Idle(mc) && mc.pend == Reset(s0) && 0 < t <= limit && !HaltedBy(s0, limit)
    ensures GenStat(Steps(mc, limit, t).clk.w) == Aok
  {
    hide *;
    UnhaltedBefore(s0, limit, t);
    BusyIsRight(s0, t - 1);
    if t + 2 <= limit {
      FarFromLimit(mc, limit, t);
      UngatedClock(Steps(mc, limit, t), Reset(s0), t);
    } else if t == limit {
      LimitReached(mc, limit);
    } else {
      BeforeLast(mc, limit);
    }
  }

  // ---------- Runs that reach a halt ----------

  /** A state in which the next instruction halts is never left. */
  lemma {:induction false} StaysAtHalt(s0: State, i: nat, j: nat)
    requires GoodProgram(s0) && i <= j && Flows(s0)(i) == Halts
    ensures Run(s0, j) == Run(s0, i)
  {
    hide StepState, FetchAt, Supported, WOf, MOf, EOf, GoodProgram, LoadUsePair;
    if j > i {
      StaysAtHalt(s0, i, j - 1);
      GoodIsSupported(s0, i);
      StagesImplementStep(Run(s0, i));
    }
  }

  /** t - n, or none before cycle n. */
  function Since(t: nat, n: nat): nat { if t < n then 0 else t - n }

  /** Each stage is at least one instruction behind the next. */
  ghost predicate Lagging(k: Occ, t: nat) {
    k.F() <= t && k.D() <= Since(t, 1) && k.C() <= Since(t, 2) && k.B() <= Since(t, 3) && k.a <= Since(t, 4)
  }

  lemma NextCounts(flow: nat -> Flow, pair: nat -> bool, k: Occ)
    ensures var k' := NextOcc(flow, pair, k);
      k'.a == k.B() && k'.B() == k.C() && k'.C() <= k.D() && k'.D() <= k.F() && k'.F() <= k.F() + 1
  {
    hide ReturnPending, OffPath;
  }

  lemma SlotsLag(flow: nat -> Flow, pair: nat -> bool, k: Occ, t: nat)
    requires Lagging(k, t)
    ensures Lagging(NextOcc(flow, pair, k), t + 1)
  {
    hide NextOcc, Occ.B, Occ.C, Occ.D, Occ.F;
    NextCounts(flow, pair, k);
  }

  lemma {:induction false} AtMostOnePerCycle(s0: State, t: nat)
    ensures Lagging(OccAt(s0, t), t)
  {
    hide NextOcc, Lagging, Flows, Pairs;
    if t == 0 {
      NothingLags(0);
    } else {
      AtMostOnePerCycle(s0, t - 1);
      SlotsLag(Flows(s0), Pairs(s0), OccAt(s0, t - 1), t - 1);
    }
  }

  lemma NothingLags(t: nat)
    ensures Lagging(EMPTY, t)
  {
    hide Occ.B, Occ.C, Occ.D, Occ.F;
    EmptyOcc();
  }

  /** A limit counts cycles: at least five instructions fewer have written their registers. */
  lemma WrittenIsBehind(s0: State, limit: nat)
    ensures Written(s0, limit) <= Since(limit, 5)
  {
    hide OccAt, Occ.B, Occ.C, Occ.D, Occ.F;
    if limit > 0 { AtMostOnePerCycle(s0, limit - 1); }
  }

  /** Cycle u is the first one with a halt in write-back. */
  ghost predicate FirstHalted(s0: State, u: nat) { Unhalted(s0, u) && Halted(Flows(s0), OccAt(s0, u)) }

  lemma {:induction false} FindFirst(s0: State, u: nat) returns (v: nat)
    requires Halted(Flows(s0), OccAt(s0, u))
    ensures v <= u && FirstHalted(s0, v)
  {
    hide Flows, OccAt, Halted;
    if w: nat :| w < u && Halted(Flows(s0), OccAt(s0, w)) {
      v := FindFirst(s0, w);
    } else {
      v := u;
    }
  }

  lemma HaltedCounts(flow: nat -> Flow, k: Occ)
    requires Shape(flow, k) && Halted(flow, k)
    ensures flow(k.a) == Halts && k.B() == k.a + 1 <= k.C()
  {
  }

  lemma HaltIsLate(s0: State, u: nat)
    requires OccAt(s0, u).B() > 0
    ensures u >= 4 && OccAt(s0, u).a < u
  {
    hide OccAt, Occ.C, Occ.D, Occ.F;
    AtMostOnePerCycle(s0, u);
  }

  /** The state when the halt is in write-back, and in the two cycles before. */
  lemma ShownAtHalt(s0: State, u: nat)
    requires GoodProgram(s0) && FirstHalted(s0, u)
    ensures u >= 4 && Quiet(Reset(s0), u)
    ensures var c, h := Cycles(Reset(s0), u), OccAt(s0, u).a;
      h < u && Flows(s0)(h) == Halts && c.reg == Run(s0, h).r && c.mem == Run(s0, h).m && c.cc == Run(s0, h).cc
  {
    hide GoodProgram, Reset, Cycles, Run, OccAt, Occ.B, Occ.C, Shape, Halted, Holds, Flows, Unhalted;
    HoldsAt(s0, u);
    HaltedCounts(Flows(s0), OccAt(s0, u));
    var h := OccAt(s0, u).a;
    HaltIsLate(s0, u);
    NotYet(s0, u - 1);
    NotYet(s0, u - 2);
    ShownAt(s0, u);
    ShownAt(s0, u - 1);
    ShownAt(s0, u - 2);
    EdgeCounts(s0, u - 1);
    EdgeCounts(s0, u - 2);
    StaysAtHalt(s0, h, h + 1);
    StaysAtHalt(s0, h, OccAt(s0, u).C());
  }

  /** Up to the first halt in write-back a limit after it changes nothing. */
  lemma StepsToHalt(s0: State, mc: Machine, limit: int, u: nat, t: nat)
    requires GoodProgram(s0) && Idle(mc) && mc.pend == Reset(s0) && FirstHalted(s0, u) && u < limit && 0 < t <= u + 1
    ensures Steps(mc, limit, t).clk == Cycles(Reset(s0), t - 1)
    ensures GenStat(Steps(mc, limit, t).clk.w) == if t == u + 1 then Hlt else Aok
  {
    hide *;
    ShownAtHalt(s0, u);
    QuietSteps(mc, limit, u, t);
    UngatedClock(Steps(mc, limit, t), Reset(s0), t);
    BeforeFirst(s0, u, t - 1);
    BusyNow(s0, t - 1);
  }

  lemma BeforeFirst(s0: State, u: nat, t: nat)
    requires FirstHalted(s0, u) && t <= u
    ensures Unhalted(s0, t) && (Halted(Flows(s0), OccAt(s0, t)) <==> t == u)
  {
    hide Flows, OccAt, Halted;
  }

  // ---------- What sim_run_pipe leaves ----------

  /** The number of steps after which the loop of sim_run_pipe ends. */
  ghost predicate Ends(mc: Machine, limit: int, count: nat) {
    && (count > 0 ==> count <= limit)
    && (count < limit ==> count > 0 && GenStat(Steps(mc, limit, count).clk.w) != Aok)
    && forall t: nat :: 0 < t < count ==> GenStat(Steps(mc, limit, t).clk.w) == Aok
  }

  lemma EndsAtHalt(s0: State, mc: Machine, limit: int, u: nat, count: nat)
    requires GoodProgram(s0) && Idle(mc) && mc.pend == Reset(s0) && FirstHalted(s0, u) && u < limit && Ends(mc, limit, count)
    ensures count == u + 1
  {
    hide GoodProgram, Idle, Reset, FirstHalted, Steps, GenStat;
    StepsToHalt(s0, mc, limit, u, u + 1);
    if 0 < count <= u { StepsToHalt(s0, mc, limit, u, count); }
  }

  lemma EndsAtLimit(s0: State, mc: Machine, limit: int, count: nat)
    requires GoodProgram(s0) && Idle(mc) && mc.pend == Reset(s0) && !HaltedBy(s0, limit) && Ends(mc, limit, count)
    ensures count == if limit < 0 then 0 else limit
  {
    hide GoodProgram, Idle, Reset, HaltedBy, Steps, GenStat;
    if 0 < count < limit { StatusBeforeHalt(s0, mc, limit, count); }
  }

  /** The ISA run after as many instructions as the limit says. */
  ghost function RunTo(s0: State, limit: int): State { Run(s0, if limit < 0 then 0 else limit) }

  /** A halt in write-back before the limit: the pipeline shows what the ISA run leaves. */
  lemma HaltIsShown(s0: State, mc: Machine, limit: int, count: nat)
    requires GoodProgram(s0) && Idle(mc) && mc.pend == Reset(s0) && HaltedBy(s0, limit) && Ends(mc, limit, count)
    ensures var c := Steps(mc, limit, count).clk;
      c.reg == RunTo(s0, limit).r && c.mem == RunTo(s0, limit).m && c.cc == RunTo(s0, limit).cc
  {
    hide GoodProgram, Idle, Reset, FirstHalted, Steps, GenStat, Ends, Run, OccAt, Flows, Halted, Quiet, Cycles;
    var w: nat :| w < limit && Halted(Flows(s0), OccAt(s0, w));
    var u := FindFirst(s0, w);
    EndsAtHalt(s0, mc, limit, u, count);
    StepsToHalt(s0, mc, limit, u, u + 1);
    ShownAtHalt(s0, u);
    StaysAtHalt(s0, OccAt(s0, u).a, limit);
  }

  lemma NoneBefore(s0: State, t: int)
    requires t < 0
    ensures OccFrom(s0, t).a == OccFrom(s0, t).B() == OccFrom(s0, t).C() == 0 && OccFrom(s0, t).w == Bubble
  {
    hide *;
    EmptyOcc();
    NothingBefore(Reset(s0), s0, t);
  }

  lemma NothingWritten(s0: State, limit: int)
    requires limit <= 0
    ensures Written(s0, limit) == Stored(s0, limit) == Flagged(s0, limit) == 0
  {
    hide OccAt, OccFrom, Occ.B, Occ.C;
    NoneBefore(s0, limit - 1);
    NoneBefore(s0, limit - 2);
    NoneBefore(s0, limit - 3);
  }

  lemma IdleShows(s0: State, mc: Machine, limit: int)
    requires Idle(mc) && mc.pend == Reset(s0)
    ensures var c := Steps(mc, limit, 0).clk; c.reg == s0.r && c.mem == s0.m && c.cc == s0.cc
  {
    hide Reset, Step;
    ResetIs(s0);
  }

  /** No halt in write-back before the limit: three ISA states are shown, each in part. */
  lemma LimitIsShown(s0: State, mc: Machine, limit: int, count: nat)
    requires GoodProgram(s0) && Idle(mc) && mc.pend == Reset(s0) && !HaltedBy(s0, limit) && Ends(mc, limit, count)
    ensures var c := Steps(mc, limit, count).clk;
      c.reg == Run(s0, Written(s0, limit)).r && c.mem == Run(s0, Stored(s0, limit)).m && c.cc == Run(s0, Flagged(s0, limit)).cc
  {
    hide *;
    EndsAtLimit(s0, mc, limit, count);
    if limit <= 0 {
      NothingWritten(s0, limit);
      IdleShows(s0, mc, limit);
      StartsWith(s0);
    } else {
      ShownAtLimit(s0, mc, limit);
    }
  }

  /** The limits that let the halt of a program reach write-back. */
  lemma HaltedByIff(s0: State, n: nat, limit: int)
    requires s0.pc == 0 && HaltsAfter(s0, n) && forall i: nat :: i < n ==> GoodAt(s0, i)
    ensures GoodProgram(s0)
    ensures HaltedBy(s0, limit) <==> limit >= n + 4 + LostCycles(s0, n - 1)
  {
    hide GoodAt, GoodProgram, OccAt, Flows, Halted, LostCycles, Shape, Holds, Cycles, Reset, Run, StepState;
    GoodUpToHalt(s0, n);
    var end := n + 3 + LostCycles(s0, n - 1);
    HaltsOnTime(s0, n, end);
    forall u: nat | u < end ensures !Halted(Flows(s0), OccAt(s0, u)) { HaltsOnTime(s0, n, u); }
  }

  /** The check compares equal states when a limit stops the run. */
  ghost predicate Agrees(s0: State, limit: int) {
    && RunTo(s0, limit).r == Run(s0, Written(s0, limit)).r
    && RunTo(s0, limit).m == Run(s0, Stored(s0, limit)).m
    && RunTo(s0, limit).cc == Run(s0, Flagged(s0, limit)).cc
  }

  // ---------- A limit that makes the check fail ----------

  /** popq %rax and a halt. */
  const POP: Mem := [0xB0, 0x0F, 0, 0, 0, 0, 0, 0]

  lemma PopSteps(s0: State)
    requires s0 == Loaded(POP)
    ensures Supported(s0) && StepState(s0).1 == Aok && s0.r[REG_RSP] == 0
    ensures var s := StepState(s0).0; s.pc == 2 && s.m == POP && s.r[REG_RSP] == 8
  {
    hide LeVal, Signed;
  }

  lemma HaltSteps(s: State)
    requires s.m == POP && s.pc == 2
    ensures Supported(s) && StepState(s).1 == Hlt
  {
  }

  lemma AfterOne(s0: State)
    ensures Run(s0, 0) == s0 && Run(s0, 1) == StepState(s0).0
  {
    hide StepState;
    assert Run(s0, 0) == s0;
  }

  lemma FirstTwo(s0: State)
    requires s0 == Loaded(POP)
    ensures Run(s0, 0) == s0 && s0.pc == 0 && s0.m == POP && s0.r[REG_RSP] == 0
    ensures Run(s0, 1).pc == 2 && Run(s0, 1).m == POP && Run(s0, 1).r[REG_RSP] == 8
    ensures StepState(s0).1 == Aok && StepState(Run(s0, 1)).1 == Hlt
    ensures Supported(s0) && Supported(Run(s0, 1))
  {
    hide StepState, Supported, POP, Run;
    AfterOne(s0);
    PopSteps(s0);
    HaltSteps(Run(s0, 1));
  }

  lemma FetchesAlike(m: Mem, s: State)
    requires m == s.m
    ensures FetchAt(m, s.pc) == DOf(s)
  {
    hide FetchAt;
  }

  lemma PopIsGood(s0: State)
    requires s0 == Loaded(POP)
    ensures s0.pc == 0 && HaltsAfter(s0, 2) && forall i: nat :: i < 2 ==> GoodAt(s0, i)
  {
    hide StepState, Supported, POP, Run, FetchAt, DOf, Loaded;
    FirstTwo(s0);
    FetchesAlike(s0.m, Run(s0, 1));
  }

  /** One instruction is allowed: the ISA simulator runs it, and none reaches write-back. */
  lemma LimitMakesCheckFail(s0: State)
    requires s0 == Loaded(POP)
    ensures GoodProgram(s0) && !HaltedBy(s0, 1) && !Agrees(s0, 1)
  {
    hide StepState, Supported, POP, Run, FetchAt, GoodProgram, GoodAt, HaltsAfter, HaltedBy, Written, Stored, Flagged, Loaded;
    FirstTwo(s0);
    PopIsGood(s0);
    HaltedByIff(s0, 2, 1);
    WrittenIsBehind(s0, 1);
  }
}

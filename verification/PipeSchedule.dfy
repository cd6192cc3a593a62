/**
  The timing of the pipeline, separated from its data.

  A program is seen as an infinite sequence of instructions of which only the effect on
  fetching matters (Flow) and whether instruction i+1 reads what instruction i loads (pair).
  An occupancy records which of the registers W, M, E, D hold a right-path instruction.
 */
module PipeSchedule {

  datatype Flow = Plain | Halts | Returns | Mispredicts
  datatype Slot = Bubble | Right | Wrong

  function One(s: Slot): nat { if s == Right then 1 else 0 }

  /** `a` instructions have left W; the slots say what W, M, E and D hold. */
  datatype Occ = Occ(a: nat, w: Slot, m: Slot, e: Slot, d: Slot) {
    function B(): nat { a + One(w) }        // the instruction in M, if Right
    function C(): nat { B() + One(m) }      // the instruction in E, if Right
    function D(): nat { C() + One(e) }      // the instruction in D, if Right
    function F(): nat { D() + One(d) }      // the next right-path instruction to fetch
  }

  const EMPTY := Occ(0, Bubble, Bubble, Bubble, Bubble)

  /** Which slots may follow an instruction that redirects fetching. */
  predicate Shape(flow: nat -> Flow, k: Occ) {
    var fa, fb, fc := flow(k.a), flow(k.B()), flow(k.C());
    && k.w != Wrong && k.m != Wrong
    && (k.w == Right && fa == Halts ==> k.m != Right && k.e != Right && k.d != Right)
    && (k.m == Right && fb == Halts ==> k.e != Right && k.d != Right)
    && (k.e == Right && fc == Halts ==> k.d != Right)
    && (k.w == Right && fa == Returns ==> k.m == k.e == k.d == Bubble)
    && (k.m == Right && fb == Returns ==> k.e == k.d == Bubble)
    && (k.e == Right && fc == Returns ==> k.d == Bubble)
    && (k.m == Right && fb == Mispredicts ==> k.e == k.d == Bubble)
    && (k.e == Right && fc == Mispredicts ==> k.d != Right)
    && (k.e == Wrong ==> (k.m == Right && fb == Halts) || (k.w == Right && fa == Halts))
    && (k.d == Wrong ==> (k.e == Right && (fc == Halts || fc == Mispredicts)) ||
                         (k.m == Right && fb == Halts) || (k.w == Right && fa == Halts))
    && (k.d != Right ==>
          || k == EMPTY
          || (k.e == Right && fc != Plain)
          || (k.m == Right && k.e != Right && fb != Plain)
          || (k.w == Right && k.m != Right && k.e != Right && (fa == Returns || fa == Halts)))
  }

  predicate Halted(flow: nat -> Flow, k: Occ) { k.w == Right && flow(k.a) == Halts }

  /** Fetching at this moment yields no right-path instruction. */
  predicate OffPath(flow: nat -> Flow, k: Occ) {
    k.F() > 0 && (flow(k.F() - 1) == Halts || (k.d == Right && flow(k.D()) == Mispredicts))
  }

  predicate Stalls(pair: nat -> bool, k: Occ) { k.e == Right && k.d == Right && pair(k.C()) }

  predicate ReturnPending(flow: nat -> Flow, k: Occ) {
    || (k.m == Right && flow(k.B()) == Returns)
    || (k.e == Right && flow(k.C()) == Returns)
    || (k.d == Right && flow(k.D()) == Returns)
  }

  /** The occupancy one cycle later. */
  function NextOcc(flow: nat -> Flow, pair: nat -> bool, k: Occ): Occ {
    var squash := k.e == Right && flow(k.C()) == Mispredicts;
    if k.m == Right && flow(k.B()) == Halts then Occ(k.B(), k.m, Bubble, Wrong, Wrong)
    else if Stalls(pair, k) then Occ(k.B(), k.m, k.e, Bubble, Right)
    else if squash then Occ(k.B(), k.m, k.e, Bubble, Bubble)
    else if ReturnPending(flow, k) then Occ(k.B(), k.m, k.e, k.d, Bubble)
    else Occ(k.B(), k.m, k.e, k.d, if OffPath(flow, k) then Wrong else Right)
  }

  lemma ShapeAtHalt(flow: nat -> Flow, k: Occ)
    requires Shape(flow, k) && !Halted(flow, k)
    requires k.m == Right && flow(k.B()) == Halts
    ensures Shape(flow, Occ(k.B(), k.m, Bubble, Wrong, Wrong))
  {
    var k' := Occ(k.B(), k.m, Bubble, Wrong, Wrong);
    assert k'.B() == k.C() && k'.a == k.B();
  }

  lemma ShapeAtStall(flow: nat -> Flow, pair: nat -> bool, k: Occ)
    requires Shape(flow, k) && !Halted(flow, k)
    requires (k.m == Right ==> flow(k.B()) != Halts) && Stalls(pair, k)
    ensures Shape(flow, Occ(k.B(), k.m, k.e, Bubble, Right))
  {
    var k' := Occ(k.B(), k.m, k.e, Bubble, Right);
    assert k'.B() == k.C() && k'.a == k.B();
  }

  lemma ShapeAtSquash(flow: nat -> Flow, k: Occ)
    requires Shape(flow, k) && !Halted(flow, k)
    requires (k.m == Right ==> flow(k.B()) != Halts) && k.e == Right && flow(k.C()) == Mispredicts
    ensures Shape(flow, Occ(k.B(), k.m, k.e, Bubble, Bubble))
  {
    var k' := Occ(k.B(), k.m, k.e, Bubble, Bubble);
    assert k'.B() == k.C() && k'.a == k.B();
  }

  lemma ShapeAtReturn(flow: nat -> Flow, k: Occ)
    requires Shape(flow, k) && !Halted(flow, k)
    requires (k.m == Right ==> flow(k.B()) != Halts) && !(k.e == Right && flow(k.C()) == Mispredicts) && ReturnPending(flow, k)
    ensures Shape(flow, Occ(k.B(), k.m, k.e, k.d, Bubble))
  {
    var k' := Occ(k.B(), k.m, k.e, k.d, Bubble);
    assert k'.B() == k.C() && k'.a == k.B();
  }

  /** Fetching goes on: no instruction in M halts, none in E mispredicts, no return is pending. */
  predicate GoesOn(flow: nat -> Flow, k: Occ) {
    && (k.m == Right ==> flow(k.B()) != Halts) && !(k.e == Right && flow(k.C()) == Mispredicts)
    && !ReturnPending(flow, k)
  }

  function Fetched(flow: nat -> Flow, k: Occ): Occ {
    Occ(k.B(), k.m, k.e, k.d, if OffPath(flow, k) then Wrong else Right)
  }

  lemma YoungestInM(flow: nat -> Flow, k: Occ)
    requires k.m == Right && k.e == Bubble && k.d == Bubble && flow(k.B()) != Halts
    ensures !OffPath(flow, k)
  {
    assert k.F() == k.B() + 1;
  }

  lemma YoungestInW(flow: nat -> Flow, k: Occ)
    requires k.w == Right && k.m == Bubble && k.e == Bubble && k.d == Bubble && flow(k.a) != Halts
    ensures !OffPath(flow, k)
  {
    assert k.F() == k.a + 1;
  }

  lemma IdleShape(flow: nat -> Flow, k: Occ)
    requires Shape(flow, k) && k.e == Bubble && k.d == Bubble && k.m != Right
    ensures k.m == Bubble && (k.w == Right || k == EMPTY)
  {
  }

  /** With E and D empty the youngest instruction did not halt. */
  lemma NothingHalted(flow: nat -> Flow, k: Occ)
    requires Shape(flow, k) && !Halted(flow, k) && GoesOn(flow, k) && k.e == Bubble && k.d == Bubble
    ensures !OffPath(flow, k)
  {
    hide Shape, OffPath, ReturnPending, Occ.B, Occ.C, Occ.D;
    if k.m == Right {
      YoungestInM(flow, k);
    } else {
      IdleShape(flow, k);
      if k.w == Right { YoungestInW(flow, k); } else { NothingFetched(flow); }
    }
  }

  lemma NothingFetched(flow: nat -> Flow)
    ensures !OffPath(flow, EMPTY)
  {
  }

  lemma FetchAtBubbleBubble(flow: nat -> Flow, k: Occ)
    requires Shape(flow, k) && !Halted(flow, k) && GoesOn(flow, k) && k.e == Bubble && k.d == Bubble
    ensures Shape(flow, Fetched(flow, k))
  {
    NothingHalted(flow, k);
    hide OffPath;
    assert Fetched(flow, k).B() == k.C() && Fetched(flow, k).a == k.B();
  }

  lemma FetchAtBubbleRight(flow: nat -> Flow, k: Occ)
    requires Shape(flow, k) && !Halted(flow, k) && GoesOn(flow, k) && k.e == Bubble && k.d == Right
    ensures Shape(flow, Fetched(flow, k))
  {
    assert Fetched(flow, k).B() == k.C() && Fetched(flow, k).a == k.B();
  }

  lemma FetchAtRightBubble(flow: nat -> Flow, k: Occ)
    requires Shape(flow, k) && !Halted(flow, k) && GoesOn(flow, k) && k.e == Right && k.d == Bubble
    ensures Shape(flow, Fetched(flow, k))
  {
    assert Fetched(flow, k).B() == k.C() && Fetched(flow, k).a == k.B();
  }

  lemma FetchAtRightRight(flow: nat -> Flow, k: Occ)
    requires Shape(flow, k) && !Halted(flow, k) && GoesOn(flow, k) && k.e == Right && k.d == Right
    ensures Shape(flow, Fetched(flow, k))
  {
    assert Fetched(flow, k).B() == k.C() && Fetched(flow, k).a == k.B();
  }

  lemma FetchAtRightWrong(flow: nat -> Flow, k: Occ)
    requires Shape(flow, k) && !Halted(flow, k) && GoesOn(flow, k) && k.e == Right && k.d == Wrong
    ensures Shape(flow, Fetched(flow, k))
  {
    assert Fetched(flow, k).B() == k.C() && Fetched(flow, k).a == k.B();
  }

  /** While fetching goes on, E holds nothing wrong, and neither does D behind an empty E. */
  lemma NothingWrong(flow: nat -> Flow, k: Occ)
    requires Shape(flow, k) && !Halted(flow, k) && GoesOn(flow, k)
    ensures k.e != Wrong && (k.d == Wrong ==> k.e == Right)
  {
    hide ReturnPending;
  }

  lemma ShapeAtFetch(flow: nat -> Flow, k: Occ)
    requires Shape(flow, k) && !Halted(flow, k) && GoesOn(flow, k)
    ensures Shape(flow, Fetched(flow, k))
  {
    hide *;
    NothingWrong(flow, k);
    if k.e == Right {
      match k.d
      case Bubble => FetchAtRightBubble(flow, k);
      case Right => FetchAtRightRight(flow, k);
      case Wrong => FetchAtRightWrong(flow, k);
    } else if k.d == Bubble {
      FetchAtBubbleBubble(flow, k);
    } else {
      FetchAtBubbleRight(flow, k);
    }
  }

  /** The rule survives every cycle up to the halt. */
  lemma ShapeIsKept(flow: nat -> Flow, pair: nat -> bool, k: Occ)
    requires Shape(flow, k) && !Halted(flow, k)
    ensures Shape(flow, NextOcc(flow, pair, k))
  {
    hide Shape, Halted, Stalls, ReturnPending, OffPath, Occ.B, Occ.C;
    if k.m == Right && flow(k.B()) == Halts {
      ShapeAtHalt(flow, k);
    } else if Stalls(pair, k) {
      ShapeAtStall(flow, pair, k);
    } else if k.e == Right && flow(k.C()) == Mispredicts {
      ShapeAtSquash(flow, k);
    } else if ReturnPending(flow, k) {
      ShapeAtReturn(flow, k);
    } else {
      ShapeAtFetch(flow, k);
    }
  }

  // ---------- Exact timing ----------

  /** Extra cycles instruction i spends in D because instruction i-1 loads a register it reads. */
  function Wait(pair: nat -> bool, i: nat): nat { if i > 0 && pair(i - 1) then 1 else 0 }

  /** Cycles lost between instruction i leaving D and instruction i+1 entering it. */
  function Penalty(f: Flow): nat {
    match f case Returns => 3 case Mispredicts => 2 case _ => 0
  }

  /** The cycle in which instruction i enters D; cycle 0 is the first fetch. */
  function Enters(flow: nat -> Flow, pair: nat -> bool, i: nat): nat
    decreases i, 0
  {
    if i == 0 then 1 else Leaves(flow, pair, i - 1) + 1 + Penalty(flow(i - 1))
  }

  /** The last cycle in which instruction i is in D. */
  function Leaves(flow: nat -> Flow, pair: nat -> bool, i: nat): nat
    decreases i, 1
  {
    Enters(flow, pair, i) + Wait(pair, i)
  }

  /** The cycle an occupancy belongs to. */
  function When(flow: nat -> Flow, pair: nat -> bool, k: Occ): nat {
    if k.d == Right then
      (if k.e == Right then Enters(flow, pair, k.D()) else Leaves(flow, pair, k.D()))
    else if k.F() == 0 then 0
    else Leaves(flow, pair, k.F() - 1) + Lag(k)
  }

  /** How many stages past D the youngest right-path instruction is. */
  function Lag(k: Occ): nat {
    if k.d == Right then 0 else if k.e == Right then 1 else if k.m == Right then 2 else 3
  }

  /** A loading instruction neither redirects fetching nor halts. */
  ghost predicate PairsArePlain(flow: nat -> Flow, pair: nat -> bool) {
    forall i: nat :: pair(i) ==> flow(i) == Plain
  }

  /** An instruction in D that is not stalled leaves D in this cycle. */
  lemma UnstalledLeaves(flow: nat -> Flow, pair: nat -> bool, k: Occ)
    requires k.d == Right && !Stalls(pair, k)
    ensures When(flow, pair, k) == Leaves(flow, pair, k.D())
  {
  }

  lemma StalledWaits(flow: nat -> Flow, pair: nat -> bool, k: Occ)
    requires Shape(flow, k) && !Halted(flow, k) && Stalls(pair, k)
    ensures When(flow, pair, NextOcc(flow, pair, k)) == When(flow, pair, k) + 1
  {
    assert NextOcc(flow, pair, k) == Occ(k.B(), k.m, k.e, Bubble, Right);
    assert NextOcc(flow, pair, k).D() == k.D() == k.C() + 1;
  }

  /** The situations in which a right-path instruction is fetched. */
  predicate CanFetch(flow: nat -> Flow, k: Occ) {
    || (k.d == Right && flow(k.D()) == Plain)
    || k == EMPTY
    || (k.m == Right && flow(k.B()) == Mispredicts && k.e == k.d == Bubble)
    || (k.w == Right && flow(k.a) == Returns && k.m == k.e == k.d == Bubble)
  }

  /** What the control logic has seen when it lets a right-path instruction into D. */
  lemma FetchMeans(flow: nat -> Flow, pair: nat -> bool, k: Occ)
    requires !Stalls(pair, k) && NextOcc(flow, pair, k).d == Right
    ensures NextOcc(flow, pair, k).e == k.d && NextOcc(flow, pair, k).D() == k.F()
    ensures !ReturnPending(flow, k) && !OffPath(flow, k)
    ensures k.m == Right ==> flow(k.B()) != Halts
    ensures k.e == Right ==> flow(k.C()) != Mispredicts
  {
    hide Stalls, ReturnPending, OffPath;
  }

  lemma FetchSituations(flow: nat -> Flow, pair: nat -> bool, k: Occ)
    requires Shape(flow, k) && !Halted(flow, k) && !Stalls(pair, k)
    requires NextOcc(flow, pair, k).d == Right
    ensures NextOcc(flow, pair, k).e == k.d && NextOcc(flow, pair, k).D() == k.F()
    ensures CanFetch(flow, k)
  {
    hide NextOcc, Stalls;
    FetchMeans(flow, pair, k);
  }

  lemma FirstLeaves(flow: nat -> Flow, pair: nat -> bool)
    ensures Leaves(flow, pair, 0) == 1
  {
  }

  lemma EntersAfter(flow: nat -> Flow, pair: nat -> bool, i: nat)
    ensures Enters(flow, pair, i + 1) == Leaves(flow, pair, i) + 1 + Penalty(flow(i))
    ensures !pair(i) ==> Leaves(flow, pair, i + 1) == Enters(flow, pair, i + 1)
  {
  }

  /** The youngest instruction has left D for good: the lag says how long ago. */
  lemma FetchAfterRedirect(flow: nat -> Flow, pair: nat -> bool, k: Occ, k': Occ)
    requires PairsArePlain(flow, pair)
    requires CanFetch(flow, k) && k.d != Right && k.F() > 0
    requires k'.d == Right && k'.e == k.d && k'.D() == k.F()
    ensures When(flow, pair, k') == When(flow, pair, k) + 1
  {
    hide Enters, Leaves;
    var young := k.F() - 1;
    assert flow(young) != Plain && Lag(k) == Penalty(flow(young));
    EntersAfter(flow, pair, young);
  }

  lemma SomeFetched(flow: nat -> Flow, k: Occ)
    requires CanFetch(flow, k) && k != EMPTY
    ensures k.F() > 0
  {
  }

  lemma FirstFetch(flow: nat -> Flow, pair: nat -> bool, k': Occ)
    requires k'.d == Right && k'.e == EMPTY.d && k'.D() == EMPTY.F()
    ensures When(flow, pair, k') == When(flow, pair, EMPTY) + 1
  {
    hide Enters, Leaves;
    FirstLeaves(flow, pair);
  }

  lemma FetchAfterDecode(flow: nat -> Flow, pair: nat -> bool, k: Occ, k': Occ)
    requires CanFetch(flow, k) && k.d == Right && !Stalls(pair, k)
    requires k'.d == Right && k'.e == k.d && k'.D() == k.F()
    ensures When(flow, pair, k') == When(flow, pair, k) + 1
  {
    hide Enters, Leaves, Stalls, Lag;
    EntersAfter(flow, pair, k.D());
    UnstalledLeaves(flow, pair, k);
  }

  lemma FetchAdvances(flow: nat -> Flow, pair: nat -> bool, k: Occ, k': Occ)
    requires PairsArePlain(flow, pair)
    requires CanFetch(flow, k) && !Stalls(pair, k)
    requires k'.d == Right && k'.e == k.d && k'.D() == k.F()
    ensures When(flow, pair, k') == When(flow, pair, k) + 1
  {
    hide *;
    if k == EMPTY {
      FirstFetch(flow, pair, k');
    } else if k.d == Right {
      FetchAfterDecode(flow, pair, k, k');
    } else {
      SomeFetched(flow, k);
      FetchAfterRedirect(flow, pair, k, k');
    }
  }

  /** Without a fetch the youngest instruction moves on by one stage. */
  lemma LagGrows(flow: nat -> Flow, pair: nat -> bool, k: Occ)
    requires Shape(flow, k) && !Halted(flow, k) && !Stalls(pair, k)
    requires NextOcc(flow, pair, k).d != Right
    ensures NextOcc(flow, pair, k).F() == k.F() > 0
    ensures Lag(NextOcc(flow, pair, k)) == Lag(k) + 1
  {
  }

  /** When D holds no right-path instruction, the youngest one redirects fetching. */
  lemma IdleDecodeMeansRedirect(flow: nat -> Flow, k: Occ)
    requires Shape(flow, k) && k.d != Right && k.F() > 0
    ensures flow(k.F() - 1) != Plain
  {
  }

  lemma IdleAdvances(flow: nat -> Flow, pair: nat -> bool, k: Occ, k': Occ)
    requires k'.F() == k.F() > 0 && Lag(k') == Lag(k) + 1 && k'.d != Right
    requires k.d == Right ==> When(flow, pair, k) == Leaves(flow, pair, k.D())
    ensures When(flow, pair, k') == When(flow, pair, k) + 1
  {
    hide Enters, Leaves;
  }

  /** The clock of the schedule: every cycle moves it by exactly one. */
  lemma WhenAdvances(flow: nat -> Flow, pair: nat -> bool, k: Occ)
    requires PairsArePlain(flow, pair)
    requires Shape(flow, k) && !Halted(flow, k)
    ensures When(flow, pair, NextOcc(flow, pair, k)) == When(flow, pair, k) + 1
  {
    hide *;
    if Stalls(pair, k) {
      StalledWaits(flow, pair, k);
    } else if NextOcc(flow, pair, k).d != Right {
      LagGrows(flow, pair, k);
      if k.d == Right { UnstalledLeaves(flow, pair, k); }
      IdleAdvances(flow, pair, k, NextOcc(flow, pair, k));
    } else {
      FetchSituations(flow, pair, k);
      FetchAdvances(flow, pair, k, NextOcc(flow, pair, k));
    }
  }

  // ---------- Whole runs ----------

  function Schedule(flow: nat -> Flow, pair: nat -> bool, t: nat): Occ {
    if t == 0 then EMPTY else NextOcc(flow, pair, Schedule(flow, pair, t - 1))
  }

  /** Instruction h is the first one that halts. */
  ghost predicate FirstHalt(flow: nat -> Flow, h: nat) {
    flow(h) == Halts && forall i: nat :: i < h ==> flow(i) != Halts
  }

  lemma {:induction false} LeavesIncreases(flow: nat -> Flow, pair: nat -> bool, i: nat, j: nat)
    requires i < j
    ensures Leaves(flow, pair, i) < Leaves(flow, pair, j)
  {
    if i < j - 1 { LeavesIncreases(flow, pair, i, j - 1); }
  }

  /** The occupancy k belongs to cycle t of a run whose first halt is instruction h. */
  ghost predicate OnTime(flow: nat -> Flow, pair: nat -> bool, h: nat, k: Occ, t: nat) {
    Shape(flow, k) && When(flow, pair, k) == t && k.F() <= h + 1
  }

  lemma FetchCounts(flow: nat -> Flow, pair: nat -> bool, k: Occ)
    requires Shape(flow, k) && !Halted(flow, k)
    ensures NextOcc(flow, pair, k).F() == k.F() ||
            (NextOcc(flow, pair, k).F() == k.F() + 1 && !OffPath(flow, k))
  {
    hide OffPath;
  }

  lemma FetchStopsAtHalt(flow: nat -> Flow, pair: nat -> bool, h: nat, k: Occ)
    requires Shape(flow, k) && !Halted(flow, k) && FirstHalt(flow, h) && k.F() <= h + 1
    ensures NextOcc(flow, pair, k).F() <= h + 1
  {
    FetchCounts(flow, pair, k);
    hide NextOcc, Shape, Halted;
    if k.F() == h + 1 { assert OffPath(flow, k); }
  }

  lemma HaltedIsLast(flow: nat -> Flow, k: Occ)
    requires Shape(flow, k) && Halted(flow, k)
    ensures k.F() == k.a + 1 && k.d != Right && Lag(k) == 3
  {
  }

  lemma LastIsInW(flow: nat -> Flow, k: Occ)
    requires Shape(flow, k) && k.d != Right && k.F() > 0 && Lag(k) == 3
    ensures k.w == Right && k.F() == k.a + 1
  {
  }

  lemma LagIsSmall(k: Occ)
    ensures Lag(k) <= 3
  {
  }

  lemma HaltTime(flow: nat -> Flow, pair: nat -> bool, h: nat, k: Occ)
    requires Shape(flow, k) && FirstHalt(flow, h) && k.F() <= h + 1
    requires When(flow, pair, k) <= Leaves(flow, pair, h) + 3
    ensures Halted(flow, k) <==> When(flow, pair, k) == Leaves(flow, pair, h) + 3
    ensures Halted(flow, k) ==> k.a == h
  {
    if Halted(flow, k) {
      hide Shape, Lag, Leaves, Enters, Occ.B, Occ.C, Occ.D, Occ.F;
      HaltedIsLast(flow, k);
    } else if When(flow, pair, k) == Leaves(flow, pair, h) + 3 {
      YoungestHalts(flow, pair, h, k);
    }
  }

  /** Three cycles after the halt has left D, it is in W. */
  lemma YoungestHalts(flow: nat -> Flow, pair: nat -> bool, h: nat, k: Occ)
    requires Shape(flow, k) && FirstHalt(flow, h) && k.F() <= h + 1 && When(flow, pair, k) == Leaves(flow, pair, h) + 3
    ensures Halted(flow, k)
  {
    hide Shape, Lag, Leaves, Enters, Occ.B, Occ.C;
    LagIsSmall(k);
    FirstLeaves(flow, pair);
    if k.F() > 0 {
      EntersFirst(flow, pair, k.F() - 1);
      if k.F() - 1 < h { LeavesIncreases(flow, pair, k.F() - 1, h); }
      if k.d != Right && Lag(k) == 3 { LastIsInW(flow, k); }
    }
  }

  lemma EntersFirst(flow: nat -> Flow, pair: nat -> bool, i: nat)
    ensures Enters(flow, pair, i) <= Leaves(flow, pair, i)
  {
  }

  lemma Tick(flow: nat -> Flow, pair: nat -> bool, h: nat, k: Occ, t: nat)
    requires PairsArePlain(flow, pair) && FirstHalt(flow, h)
    requires OnTime(flow, pair, h, k, t) && t < Leaves(flow, pair, h) + 3
    ensures OnTime(flow, pair, h, NextOcc(flow, pair, k), t + 1)
  {
    hide Shape, When, NextOcc, Leaves, Occ.F, Halted;
    HaltTime(flow, pair, h, k);
    ShapeIsKept(flow, pair, k);
    WhenAdvances(flow, pair, k);
    FetchStopsAtHalt(flow, pair, h, k);
  }

  /** The schedule is on time up to the cycle in which the halt instruction reaches W. */
  lemma {:induction false} ScheduleIsOnTime(flow: nat -> Flow, pair: nat -> bool, h: nat, t: nat)
    requires PairsArePlain(flow, pair) && FirstHalt(flow, h)
    requires t <= Leaves(flow, pair, h) + 3
    ensures OnTime(flow, pair, h, Schedule(flow, pair, t), t)
  {
    if t > 0 {
      ScheduleIsOnTime(flow, pair, h, t - 1);
      Tick(flow, pair, h, Schedule(flow, pair, t - 1), t - 1);
    }
  }

  /** Cycles lost to the hazards of the first n instructions. */
  function Lost(flow: nat -> Flow, pair: nat -> bool, n: nat): nat {
    if n == 0 then 0 else Lost(flow, pair, n - 1) + Penalty(flow(n - 1)) + (if pair(n - 1) then 1 else 0)
  }

  /** One cycle per instruction plus the hazards before it. */
  lemma {:induction false} LeavesCounts(flow: nat -> Flow, pair: nat -> bool, i: nat)
    requires PairsArePlain(flow, pair)
    ensures Leaves(flow, pair, i) == i + 1 + Lost(flow, pair, i)
    ensures Lost(flow, pair, i) <= 3 * i
  {
    if i > 0 { LeavesCounts(flow, pair, i - 1); }
  }
}

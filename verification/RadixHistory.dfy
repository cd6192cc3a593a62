/**
  Histories of insertions and removals: both radix trees hold the set, and the compressed one is
  the same tree for every history that leads to the set.
 */
module RadixHistory {
  import opened Powers
  import opened RadixKeys
  import opened RadixShape
  import C = CompressedRadix
  import P = PlainRadix

  const BITS: nat := 32

  /** The values the trees are used for: the numbers of an int32_t that are not negative. */
  predicate IsValue(v: nat) { v < 0x8000_0000 }

  function KeyOf(v: nat): seq<nat> { Digits(v, BITS) }

  datatype Op = Ins(v: nat) | Rem(v: nat)

  const C_ROOT := C.Node(0, 0, 0, C.NONE)

  ghost predicate AreValues(ops: seq<Op>) { forall op | op in ops :: IsValue(op.v) }

  /** The set of values after the operations, last one last. */
  function SetOf(ops: seq<Op>): set<nat> {
    if ops == [] then {}
    else
      var s, op := SetOf(ops[..|ops| - 1]), ops[|ops| - 1];
      if op.Ins? then s + {op.v} else s - {op.v}
  }

  function StepC(t: C.Tree, op: Op): C.Tree
    requires C.Good(t, BITS / 2)
  {
    if op.Ins? then C.Insert(t, KeyOf(op.v)) else if C.Has(t, KeyOf(op.v)) then C.Remove(t, KeyOf(op.v)) else t
  }

  function StepP(t: P.Tree, op: Op): P.Tree
    requires P.Good(t, BITS / 2)
  {
    if op.Ins? then P.Insert(t, KeyOf(op.v)) else if P.Has(t, KeyOf(op.v)) then P.Remove(t, KeyOf(op.v)) else t
  }

  lemma StepsAreGood(t: C.Tree, p: P.Tree, op: Op)
    requires C.Good(t, BITS / 2) && P.Good(p, BITS / 2)
    ensures C.Good(StepC(t, op), BITS / 2) && P.Good(StepP(p, op), BITS / 2)
    ensures StepC(t, op).value == t.value && StepC(t, op).len == t.len
  {
    var k := KeyOf(op.v);
    if op.Ins? {
      C.InsertIsGood(t, k, BITS / 2);
      P.InsertIsGood(p, k, BITS / 2);
    } else {
      if C.Has(t, k) { C.RemoveIsGood(t, k, BITS / 2); }
      if P.Has(p, k) { P.RemoveIsGood(p, k, BITS / 2); }
    }
  }

  function RunC(ops: seq<Op>): (t: C.Tree)
    ensures C.Good(t, BITS / 2) && t.value == 0 && t.len == 0
  {
    if ops == [] then C_ROOT
    else
      var t := RunC(ops[..|ops| - 1]);
      StepsAreGood(t, P.EMPTY, ops[|ops| - 1]);
      StepC(t, ops[|ops| - 1])
  }

  function RunP(ops: seq<Op>): (p: P.Tree)
    ensures P.Good(p, BITS / 2)
  {
    if ops == [] then P.EMPTY
    else
      var p := RunP(ops[..|ops| - 1]);
      StepsAreGood(C_ROOT, p, ops[|ops| - 1]);
      StepP(p, ops[|ops| - 1])
  }

  /** Every key of sixteen digits is that of one number. */
  lemma KeyIsNumber(v: nat, k: seq<nat>)
    requires IsValue(v) && Key(k, BITS / 2)
    ensures KeyOf(v) == k <==> v == Number(k)
  {
    hide Digits, Number;
    Pow2Of32();
    hide Pow2;
    NumberOfDigits(v, BITS);
    DigitsOfNumber(k);
  }

  lemma Pow2Of32()
    ensures Pow2(BITS) == 0x1_0000_0000
  {
    assert Pow2(8) == 256;
    assert Pow2(16) == 65536;
    assert Pow2(24) == 0x100_0000;
  }

  lemma StepHas(t: C.Tree, p: P.Tree, op: Op, k: seq<nat>)
    requires C.Good(t, BITS / 2) && P.Good(p, BITS / 2) && Key(k, BITS / 2)
    ensures C.Has(StepC(t, op), k) <==> if op.Ins? then C.Has(t, k) || k == KeyOf(op.v) else C.Has(t, k) && k != KeyOf(op.v)
    ensures P.Has(StepP(p, op), k) <==> if op.Ins? then P.Has(p, k) || k == KeyOf(op.v) else P.Has(p, k) && k != KeyOf(op.v)
  {
    hide C.Good, P.Good, C.Has, P.Has, Digits;
    var x := KeyOf(op.v);
    if op.Ins? {
      C.InsertHas(t, x, BITS / 2, k);
      P.InsertHas(p, x, BITS / 2, k);
    } else {
      if C.Has(t, x) { C.RemoveHas(t, x, BITS / 2, k); }
      if P.Has(p, x) { P.RemoveHas(p, x, BITS / 2, k); }
    }
  }

  lemma NothingAtFirst(k: seq<nat>)
    requires Key(k, BITS / 2)
    ensures !C.Has(C_ROOT, k) && !P.Has(P.EMPTY, k)
  {
  }

  /** After every history both trees hold exactly the keys of the set. */
  lemma {:induction false} TreesHoldTheSet(ops: seq<Op>, k: seq<nat>)
    requires AreValues(ops) && Key(k, BITS / 2)
    ensures C.Has(RunC(ops), k) <==> Number(k) in SetOf(ops)
    ensures P.Has(RunP(ops), k) <==> Number(k) in SetOf(ops)
    decreases |ops|
  {
    hide C.Good, P.Good, C.Has, P.Has, Digits, Number, Key, StepC, StepP, KeyOf;
    if ops == [] {
      NothingAtFirst(k);
    } else {
      var front, op := ops[..|ops| - 1], ops[|ops| - 1];
      TreesHoldTheSet(front, k);
      StepHas(RunC(front), RunP(front), op, k);
      assert op in ops;
      KeyIsNumber(op.v, k);
    }
  }

  /** find gives the same answer in both trees, and the answer is membership in the set. */
  lemma FindAgrees(ops: seq<Op>, v: nat)
    requires AreValues(ops) && IsValue(v)
    ensures C.Has(RunC(ops), KeyOf(v)) <==> v in SetOf(ops)
    ensures P.Has(RunP(ops), KeyOf(v)) <==> v in SetOf(ops)
  {
    TreesHoldTheSet(ops, KeyOf(v));
    KeyIsNumber(v, KeyOf(v));
  }

  /** The order of the operations leaves no trace: the tree and its size depend on the set only. */
  lemma ShapeDependsOnSet(ops: seq<Op>, ops': seq<Op>)
    requires AreValues(ops) && AreValues(ops') && SetOf(ops) == SetOf(ops')
    ensures RunC(ops) == RunC(ops')
  {
    hide C.Good, C.Has, Number, Key, SetOf;
    forall k | Key(k, BITS / 2) ensures C.Has(RunC(ops), k) <==> C.Has(RunC(ops'), k) {
      TreesHoldTheSet(ops, k);
      TreesHoldTheSet(ops', k);
    }
    SameSetSameTree(RunC(ops), RunC(ops'), BITS / 2);
    RootsAreNodes(ops);
    RootsAreNodes(ops');
  }

  lemma RootsAreNodes(ops: seq<Op>)
    ensures RunC(ops).Node?
  {
  }
}

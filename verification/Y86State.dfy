/**
  The ISA simulator in the form isa.c gives it: byte loops over the memory array and a
  state record that step_state updates in place.
 */
module Y86State {
  import opened Powers
  import opened Bytes
  import opened Options
  import opened Y86Isa

  // ---------- Byte loops ----------

  lemma {:induction false} LeValAppend(bs: seq<Byte>, b: Byte)
    ensures LeVal(bs + [b]) == LeVal(bs) + b * Pow2(8 * |bs|)
  {
    if |bs| == 0 {
      assert bs + [b] == [b];
    } else {
      assert (bs + [b])[1..] == bs[1..] + [b];
      LeValAppend(bs[1..], b);
      Pow2Plus8(8 * (|bs| - 1));
      var p := Pow2(8 * (|bs| - 1));
      assert 256 * (b * p) == b * (256 * p);
    }
  }

  /** v shifted right by n bytes, keeping the sign. */
  function ShiftRight(v: int, n: nat): int {
    if n == 0 then v else ShiftRight(v, n - 1) / 256
  }

  lemma {:induction false} ShiftRightFirst(v: int, n: nat)
    ensures ShiftRight(v, n + 1) == ShiftRight(v / 256, n)
  {
    if n > 0 { ShiftRightFirst(v, n - 1); }
  }

  lemma {:induction false} LeBytesAppend(v: int, n: nat)
    ensures LeBytes(v, n + 1) == LeBytes(v, n) + [ShiftRight(v, n) % 256]
    decreases n
  {
    if n > 0 {
      LeBytesAppend(v / 256, n - 1);
      ShiftRightFirst(v, n - 1);
    }
  }

  method GetWord(m: array<Byte>, pos: Word) returns (ok: bool, dest: Word)
    requires m.Length < 0x8000_0000
    ensures GetWordVal(m[..], pos) == if ok then Some(dest) else None
  {
    if pos < 0 || pos + 8 > m.Length {
      return false, 0;
    }
    var val: int, scale: int := 0, 1;
    for i := 0 to 8
      invariant scale == Pow2(8 * i)
      invariant val == LeVal(m[pos..pos + i])
    {
      LeValAppend(m[pos..pos + i], m[pos + i]);
      assert m[pos..pos + i] + [m[pos + i]] == m[pos..pos + i + 1];
      Pow2Plus8(8 * i);
      val := val + m[pos + i] * scale;
      scale := scale * 256;
    }
    assert m[..][pos..pos + 8] == m[pos..pos + 8];
    return true, Signed(val);
  }

  method SetWord(m: array<Byte>, pos: Word, val: Word) returns (ok: bool)
    requires m.Length < 0x8000_0000
    modifies m
    ensures ok <==> SetWordVal(old(m[..]), pos, val).Some?
    ensures m[..] == if ok then SetWordVal(old(m[..]), pos, val).value else old(m[..])
  {
    if pos < 0 || pos + 8 > m.Length {
      return false;
    }
    var v: int := val;
    for i := 0 to 8
      invariant v == ShiftRight(val, i)
      invariant m[pos..pos + i] == LeBytes(val, i)
      invariant m[..pos] == old(m[..pos]) && m[pos + i..] == old(m[pos + i..])
    {
      LeBytesAppend(val, i);
      m[pos + i] := v % 256;
      v := v / 256;
      assert m[pos..pos + i + 1] == m[pos..pos + i] + [m[pos + i]];
    }
    assert m[..] == m[..pos] + m[pos..pos + 8] + m[pos + 8..];
    return true;
  }

  method GetByte(m: array<Byte>, pos: Word) returns (ok: bool, dest: Byte)
    requires m.Length < 0x8000_0000
    ensures GetByteVal(m[..], pos) == if ok then Some(dest) else None
  {
    if pos < 0 || pos >= m.Length {
      return false, 0;
    }
    return true, m[pos];
  }

  // ---------- The state record ----------

  class StateRec {
    var pc: Word
    const r: array<Word>
    const m: array<Byte>
    var cc: CC

    ghost predicate Valid()
    {
      r.Length == 15 && m.Length < 0x8000_0000
    }

    ghost function Snapshot(): State
      requires Valid()
      reads this, r, m
    {
      State(pc, r[..], m[..], cc)
    }

    /** new_state, with the memory image of a loaded program */
    constructor (image: array<Byte>)
      requires image.Length < 0x8000_0000
      ensures Valid() && fresh(r) && m == image
      ensures Snapshot() == State(0, seq(15, _ => 0), image[..], DEFAULT_CC)
    {
      pc := 0;
      r := new Word[15](_ => 0);
      m := image;
      cc := DEFAULT_CC;
    }

    method Get(id: Nibble) returns (val: Word)
      requires Valid()
      ensures val == GetReg(r[..], id)
    {
      if id >= REG_NONE { return 0; }
      return r[id];
    }

    method Set(id: Nibble, val: Word)
      requires Valid()
      modifies r
      ensures r[..] == SetReg(old(r[..]), id, val)
    {
      if id < REG_NONE { r[id] := val; }
    }

    /** step_state: the new state and status are those of the instruction semantics. */
    method Step() returns (status: Stat)
      requires Valid()
      modifies this, r, m
      ensures Valid()
      ensures (Snapshot(), status) == StepState(old(Snapshot()))
    {
      hide LeVal, Signed, LeBytes, SetWordVal, ComputeAlu, ComputeCc, CondHolds;
      var ok0, byte0 := GetByte(m, pc);
      if !ok0 { return Adr; }
      var ftpc: Word := pc + 1;
      var hi0, lo0 := Hi4(byte0), Lo4(byte0);
      var ok1, hi1: Nibble, lo1: Nibble := true, REG_NONE, REG_NONE;
      if NeedRegids(hi0) {
        var byte1;
        ok1, byte1 := GetByte(m, ftpc);
        ftpc := ftpc + 1;
        hi1, lo1 := Hi4(byte1), Lo4(byte1);
      }
      var okc, cval: Word := true, 0;
      if NeedImm(hi0) {
        okc, cval := GetWord(m, ftpc);
        ftpc := ftpc + 8;
      }
      status := Perform(hi0, lo0, ok1, hi1, lo1, okc, cval, ftpc);
    }

    method Perform(hi0: Nibble, lo0: Nibble, ok1: bool, hi1: Nibble, lo1: Nibble,
                   okc: bool, cval: Word, ftpc: Word) returns (status: Stat)
      requires Valid()
      modifies this, r, m
      ensures Valid()
      ensures (Snapshot(), status) ==
        Execute(old(Snapshot()), hi0, lo0, ok1, hi1, lo1, okc, cval, ftpc)
    {
      if hi0 == I_NOP {
        pc := ftpc;
      } else if hi0 == I_HALT {
        return Hlt;
      } else if hi0 == I_RRMOVQ {
        if !ok1 { return Adr; }
        if hi1 >= REG_NONE || lo1 >= REG_NONE { return Ins; }
        var val := Get(hi1);
        if CondHolds(cc, lo0) { Set(lo1, val); }
        pc := ftpc;
      } else if hi0 == I_IRMOVQ {
        if !ok1 { return Adr; }
        if !okc || lo1 >= REG_NONE { return Ins; }
        Set(lo1, cval);
        pc := ftpc;
      } else if hi0 == I_RMMOVQ || hi0 == I_MRMOVQ {
        if !ok1 { return Adr; }
        if !okc || hi1 >= REG_NONE { return Ins; }
        var addr := cval;
        if lo1 < REG_NONE {
          var base := Get(lo1);
          addr := Add(addr, base);
        }
        if hi0 == I_RMMOVQ {
          var val := Get(hi1);
          var ok := SetWord(m, addr, val);
          if !ok { return Adr; }
        } else {
          var ok, val := GetWord(m, addr);
          if !ok { return Adr; }
          Set(hi1, val);
        }
        pc := ftpc;
      } else if hi0 == I_ALU {
        if !ok1 { return Adr; }
        var argA := Get(hi1);
        var argB := Get(lo1);
        Set(lo1, ComputeAlu(lo0, argA, argB));
        cc := ComputeCc(lo0, argA, argB);
        pc := ftpc;
      } else if hi0 == I_JMP {
        if !ok1 || !okc { return Adr; }
        pc := if CondHolds(cc, lo0) then cval else ftpc;
      } else {
        status := PerformStack(hi0, lo0, ok1, hi1, lo1, okc, cval, ftpc);
        return;
      }
      return Aok;
    }

    /** The instructions that move the stack pointer, and iaddq. */
    method PerformStack(hi0: Nibble, ghost lo0: Nibble, ok1: bool, hi1: Nibble, lo1: Nibble,
                        okc: bool, cval: Word, ftpc: Word) returns (status: Stat)
      requires Valid() && hi0 > I_JMP
      modifies this, r, m
      ensures Valid()
      ensures (Snapshot(), status) ==
        Execute(old(Snapshot()), hi0, lo0, ok1, hi1, lo1, okc, cval, ftpc)
    {
      var rsp := Get(REG_RSP);
      if hi0 == I_CALL {
        if !ok1 || !okc { return Adr; }
        Set(REG_RSP, Sub(rsp, 8));
        var ok := SetWord(m, Sub(rsp, 8), ftpc);
        if !ok { return Adr; }
        pc := cval;
      } else if hi0 == I_RET {
        var ok, val := GetWord(m, rsp);
        if !ok { return Adr; }
        Set(REG_RSP, Add(rsp, 8));
        pc := val;
      } else if hi0 == I_PUSHQ {
        if !ok1 { return Adr; }
        if hi1 >= REG_NONE { return Ins; }
        var val := Get(hi1);
        Set(REG_RSP, Sub(rsp, 8));
        var ok := SetWord(m, Sub(rsp, 8), val);
        if !ok { return Adr; }
        pc := ftpc;
      } else if hi0 == I_POPQ {
        if !ok1 { return Adr; }
        if hi1 >= REG_NONE { return Ins; }
        Set(REG_RSP, Add(rsp, 8));
        var ok, val := GetWord(m, rsp);
        if !ok { return Adr; }
        Set(hi1, val);
        pc := ftpc;
      } else if hi0 == I_IADDQ {
        if !ok1 { return Adr; }
        if !okc || lo1 >= REG_NONE { return Ins; }
        var argB := Get(lo1);
        Set(lo1, Add(argB, cval));
        cc := ComputeCc(A_ADD, cval, argB);
        pc := ftpc;
      } else {
        return Ins;
      }
      return Aok;
    }
  }
}

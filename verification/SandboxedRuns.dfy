/** Runs that stay inside the sandbox, as taint soundness asks. An invariant that every instruction keeps, on
    both sides of a branch, holds in all of a speculative run; for the code that the sandbox pass emits there is
    one. */
module SandboxedRuns {
  import opened Arithmetic
  import opened Flags
  import opened Machine
  import opened Speculation
  import opened UndoLogs
  import opened Taint
  import opened TaintSoundness
  import opened TwoRuns
  import opened Inputs

  // ----- Invariants of instructions -----

  /** Both successors of a conditional jump, with RCX decremented, as speculation may reach them. */
  ghost predicate KeptByJump(i: Insn, x: Cpu, inv: iset<Cpu>)
    requires ValidEncoding(i.code)
  {
    var after := AfterDecrement(IsaJump(i.code), x);
    var fall := x.pc + |i.code|;
    after.(pc := fall) in inv && after.(pc := fall + DecodeTarget(i.code)) in inv
  }

  /** Where the invariant holds, an instruction accesses memory on one side of the sandbox base and
      leads to where it holds again. */
  ghost predicate IsInvariant(k: Contract, inv: iset<Cpu>)
    requires ValidProgram(k)
  {
    forall x: Cpu :: x in inv && x.pc in k.prog ==>
      var i := k.prog[x.pc];
      && AccessesInside(k.base, i, x)
      && Exec(i, x) in inv
      && (!IsaJump(i.code).NoJump? ==> KeptByJump(i, x, inv))
  }

  /** It holds now and wherever the run may be rolled back to. */
  ghost predicate HoldsAt(c: Config, inv: iset<Cpu>) {
    && LogsRestore(c) && c.cpu in inv
    && forall j :: 0 <= j < |c.saved| ==> SavedCpu(c.saved[j]) in inv
  }

  lemma MispredictKeeps(k: Contract, c: Config, inv: iset<Cpu>)
    requires ValidProgram(k) && IsInvariant(k, inv) && HoldsAt(c, inv) && Running(k, c) && Mispredicts(k, Observe(k, c))
    ensures Step(k, c).cpu in inv
    ensures forall j :: 0 <= j < |Step(k, c).saved| ==> SavedCpu(Step(k, c).saved[j]) in inv
  {
    MispredictedStep(k, c);
    MispredictEffect(k, Observe(k, c));
    assert KeptByJump(k.prog[c.cpu.pc], c.cpu, inv);
  }

  lemma MoveKeeps(k: Contract, c: Config, inv: iset<Cpu>)
    requires ValidProgram(k) && SmallStores(k) && !k.execution.Bpas?
    requires IsInvariant(k, inv) && Undoable(k, c) && HoldsAt(c, inv)
    ensures MoveInside(k, c) && Undoable(k, Step(k, c)) && HoldsAt(Step(k, c), inv)
  {
    StepKeepsLogs(k, c);
    if !Running(k, c) {
      if c.saved != [] {
        RollbackState(c);
      }
    } else if Mispredicts(k, Observe(k, c)) {
      MispredictKeeps(k, c, inv);
    } else if Observe(k, c).stopped {
      assert BypassHook(k, Observe(k, c)) == Observe(k, c);
    } else {
      ExecutedStep(k, c);
    }
  }

  lemma {:induction false} InvariantHolds(k: Contract, c: Config, inv: iset<Cpu>, n: nat)
    requires ValidProgram(k) && SmallStores(k) && !k.execution.Bpas?
    requires IsInvariant(k, inv) && Undoable(k, c) && HoldsAt(c, inv)
    ensures RunInside(k, c, n) && HoldsAt(Run(k, c, n), inv)
    decreases n
  {
    if n > 0 {
      MoveKeeps(k, c, inv);
      InvariantHolds(k, Step(k, c), inv, n - 1);
      forall m | 0 <= m < n ensures MoveInside(k, Run(k, c, m)) {
        if m > 0 {
          assert Run(k, c, m) == Run(k, Step(k, c), m - 1);
        }
      }
    }
  }

  /** An invariant that holds at the start keeps every run of the program inside, with all its speculation. */
  lemma InvariantKeepsRunsInside(k: Contract, inv: iset<Cpu>, y: Layout, rest: Cpu, input: seq<int>, n: nat)
    requires ValidProgram(k) && SmallStores(k) && !k.execution.Bpas? && IsInvariant(k, inv)
    requires ValidInput(y, input) && LoadInput(y, k.base, rest, input) in inv
    ensures RunInside(k, StartOn(k, y, rest, input), n)
  {
    InvariantHolds(k, StartOn(k, y, rest, input), inv, n);
  }

  // ----- Sandboxed programs -----

  /** For some addresses, a register that holds a masked value whenever the run gets there. */
  type Masks = map<int, string>

  ghost predicate MasksRegister(i: Insn, r: string, mask: nat) {
    && r in DestRegs(i.operands)
    && forall was: int, v: View {:trigger i.regOut(r, was, v)} :: 0 <= was < TWO64 ==> 0 <= i.regOut(r, was, v) <= mask
  }

  /** Falling through to `next` keeps its promise: the instruction masks the register, or it is masked already and
      the instruction leaves it alone. */
  ghost predicate EntersMasked(i: Insn, pc: int, next: int, masks: Masks, mask: nat) {
    next in masks ==>
      || MasksRegister(i, masks[next], mask)
      || (pc in masks && masks[pc] == masks[next] && masks[next] !in DestRegs(i.operands))
  }

  predicate AddressesMasked(i: Insn, pc: int, masks: Masks) {
    pc in masks && AddressRegs(i.operands) == ["14", masks[pc]]
  }

  ghost predicate AtSum(accesses: seq<Access>, v: seq<int>) {
    forall n :: 0 <= n < |accesses| ==>
      |v| == 2 && accesses[n].addr == (v[0] + v[1]) % TWO64 && 0 < accesses[n].size <= 8
  }

  /** Memory is accessed only where a register is masked, in at most eight bytes at R14 plus that register. */
  ghost predicate AccessesMasked(i: Insn, pc: int, masks: Masks) {
    if AddressesMasked(i, pc, masks) then
      forall v: seq<int> {:trigger i.loads(pc, v)} {:trigger i.stores(pc, v)} :: |v| == 2 ==>
        AtSum(i.loads(pc, v), v) && AtSum(i.stores(pc, v), v)
    else
      forall v: seq<int> {:trigger i.loads(pc, v)} {:trigger i.stores(pc, v)} ::
        i.loads(pc, v) == [] && i.stores(pc, v) == []
  }

  /** R14 is left alone, and an address with a masked register is entered by falling through alone. */
  ghost predicate SandboxedInsn(i: Insn, pc: int, masks: Masks, mask: nat)
    requires ValidEncoding(i.code)
  {
    var fall, j := pc + |i.code|, IsaJump(i.code);
    && "14" !in DestRegs(i.operands)
    && if !j.NoJump? then fall !in masks && fall + j.disp !in masks && fall + DecodeTarget(i.code) !in masks
       else
         && AccessesMasked(i, pc, masks)
         && if i.controlFlow then forall v: View {:trigger i.next(v)} :: i.next(v) !in masks
            else EntersMasked(i, pc, fall, masks, mask)
  }

  ghost predicate Sandboxed(k: Contract, masks: Masks, mask: nat)
    requires ValidProgram(k)
  {
    forall pc :: pc in k.prog ==> SandboxedInsn(k.prog[pc], pc, masks, mask)
  }

  ghost function Masked(r14: int, masks: Masks, mask: nat): iset<Cpu> {
    iset x: Cpu | x.regs["14"] == r14 && (x.pc in masks ==> x.regs[masks[x.pc]] <= mask)
  }

  lemma RegAfter(i: Insn, x: Cpu, r: string)
    requires IsaJump(i.code).NoJump?
    ensures Exec(i, x).regs[r] ==
            if r in DestRegs(i.operands) then i.regOut(r, x.regs[r], ViewOf(i, x)) % TWO64 else x.regs[r]
  {
  }

  lemma PcAfter(i: Insn, x: Cpu)
    requires IsaJump(i.code).NoJump?
    ensures Exec(i, x).pc == if i.controlFlow then i.next(ViewOf(i, x)) else x.pc + |i.code|
  {
  }

  lemma NoStraddle(base: int, a: int, size: nat)
    requires 0 <= base <= a && a + size <= TWO64 && 0 < size <= 8
    ensures a % TWO64 == a && InSandbox(base, Access(a, size))
  {
    assert (a - base) % TWO64 == a - base;
  }

  lemma SumInside(base: int, accesses: seq<Access>, v: seq<int>)
    requires AtSum(accesses, v)
    requires |v| == 2 ==> 0 <= base <= v[0] && 0 <= v[1] && v[0] + v[1] + 8 <= TWO64
    ensures forall n :: 0 <= n < |accesses| ==> InSandbox(base, accesses[n])
  {
    forall n | 0 <= n < |accesses| ensures InSandbox(base, accesses[n]) {
      NoStraddle(base, v[0] + v[1], accesses[n].size);
    }
  }

  lemma AccessesStayInside(base: int, i: Insn, x: Cpu, r14: int, masks: Masks, mask: nat)
    requires IsaJump(i.code).NoJump? && AccessesMasked(i, x.pc, masks)
    requires x in Masked(r14, masks, mask) && 0 <= base <= r14 && r14 + mask + 8 <= TWO64
    ensures AccessesInside(base, i, x)
  {
    var v := RegValues(x.regs, AddressRegs(i.operands));
    if AddressesMasked(i, x.pc, masks) {
      assert v == [r14, x.regs[masks[x.pc]]];
      assert AtSum(i.loads(x.pc, v), v) && AtSum(i.stores(x.pc, v), v);
      SumInside(base, i.loads(x.pc, v), v);
      SumInside(base, i.stores(x.pc, v), v);
    } else {
      assert i.loads(x.pc, v) == [] && i.stores(x.pc, v) == [];
    }
  }

  lemma PlainKeepsMasked(i: Insn, x: Cpu, r14: int, masks: Masks, mask: nat)
    requires ValidEncoding(i.code) && IsaJump(i.code).NoJump? && SandboxedInsn(i, x.pc, masks, mask)
    requires x in Masked(r14, masks, mask)
    ensures Exec(i, x) in Masked(r14, masks, mask)
  {
    var x' := Exec(i, x);
    RegAfter(i, x, "14");
    PcAfter(i, x);
    if x'.pc in masks {
      assert !i.controlFlow;
      var r := masks[x'.pc];
      RegAfter(i, x, r);
      if MasksRegister(i, r, mask) {
        var out := i.regOut(r, x.regs[r], ViewOf(i, x));
        assert 0 <= out <= mask;
        SmallerRemainder(out, TWO64);
      }
    }
  }

  lemma SmallerRemainder(v: nat, n: nat)
    requires n > 0
    ensures v % n <= v
  {
  }

  lemma JumpKeepsMasked(i: Insn, x: Cpu, r14: int, masks: Masks, mask: nat)
    requires ValidEncoding(i.code) && !IsaJump(i.code).NoJump? && SandboxedInsn(i, x.pc, masks, mask)
    requires x in Masked(r14, masks, mask)
    ensures Exec(i, x) in Masked(r14, masks, mask) && KeptByJump(i, x, Masked(r14, masks, mask))
    ensures LoadsOf(i, x) == StoresOf(i, x) == []
  {
  }

  /** What a sandboxed program keeps true of its masked registers is an invariant. */
  lemma MaskedIsInvariant(k: Contract, masks: Masks, mask: nat, r14: int)
    requires ValidProgram(k) && Sandboxed(k, masks, mask)
    requires 0 <= k.base <= r14 && r14 + mask + 8 <= TWO64
    ensures IsInvariant(k, Masked(r14, masks, mask))
  {
    var inv := Masked(r14, masks, mask);
    forall x: Cpu | x in inv && x.pc in k.prog
      ensures AccessesInside(k.base, k.prog[x.pc], x) && Exec(k.prog[x.pc], x) in inv
      ensures !IsaJump(k.prog[x.pc].code).NoJump? ==> KeptByJump(k.prog[x.pc], x, inv)
    {
      var i := k.prog[x.pc];
      if IsaJump(i.code).NoJump? {
        AccessesStayInside(k.base, i, x, r14, masks, mask);
        PlainKeepsMasked(i, x, r14, masks, mask);
      } else {
        JumpKeepsMasked(i, x, r14, masks, mask);
      }
    }
  }

  lemma StartsMasked(k: Contract, masks: Masks, mask: nat, y: Layout, rest: Cpu, a: seq<int>)
    requires ValidInput(y, a) && rest.pc !in masks
    ensures LoadInput(y, k.base, rest, a) in Masked(rest.regs["14"], masks, mask)
  {
    assert InputOffset(RegLabel("14"), y.registerStart) == -1;
    assert LoadedRegs(y, a, rest.regs)["14"] == LoadedReg(y, a, "14", rest.regs["14"]);
  }

  /** Every run of a sandboxed program stays inside, for every input, with all its speculation: masked accesses
      from R14 on end below 2^64, and R14 is at or above the sandbox base. */
  lemma SandboxedStaysInside(k: Contract, masks: Masks, mask: nat, y: Layout, rest: Cpu, a: seq<int>, n: nat)
    requires ValidProgram(k) && SmallStores(k) && !k.execution.Bpas? && Sandboxed(k, masks, mask)
    requires ValidInput(y, a) && rest.pc !in masks
    requires 0 <= k.base <= rest.regs["14"] && rest.regs["14"] + mask + 8 <= TWO64
    ensures RunInside(k, StartOn(k, y, rest, a), n)
  {
    MaskedIsInvariant(k, masks, mask, rest.regs["14"]);
    StartsMasked(k, masks, mask, y, rest, a);
    InvariantKeepsRunsInside(k, Masked(rest.regs["14"], masks, mask), y, rest, a, n);
  }

  /** So taint soundness applies to every such program: inputs that agree on the tainted words have the same
      trace. */
  lemma SandboxedIsSound(k: Contract, masks: Masks, mask: nat, y: Layout, rest: Cpu, a: seq<int>, b: seq<int>, n: nat)
    requires TrackableProgram(k) && !k.execution.Bpas? && Sandboxed(k, masks, mask) && rest.pc !in masks
    requires 0 <= k.base <= rest.regs["14"] && rest.regs["14"] + mask + 8 <= TWO64
    requires ValidInput(y, a) && ValidInput(y, b) && AgreeOn(TaintOf(k, y, rest, a, n), a, b)
    ensures Run(k, StartOn(k, y, rest, a), n).trace == Run(k, StartOn(k, y, rest, b), n).trace
  {
    SandboxedStaysInside(k, masks, mask, y, rest, a, n);
    TaintIsSound(k, y, rest, a, b, n);
  }

  // ----- One of them -----

  function Sum(v: seq<int>): int {
    if v == [] then 0 else Sum(v[..|v| - 1]) + v[|v| - 1]
  }

  /** JZ behind the load. */
  function BranchInsn(): Insn {
    Insn("JZ", [0x74, 11], [FlagsOp(READS_ZF), RegOp("RIP", true, true)], true,
         (pc, v) => [], (pc, v) => [], (v: View) => v.pc, (r, was, v) => was, (f, v) => false, (k, b, v) => 0)
  }

  /** AND RBX, mask. */
  function MaskInsn(mask: nat): Insn {
    Insn("AND", [0x48, 0x81, 0xE3, 0, 0, 0, 0], [RegOp("B", true, true), FlagsOp(AND_MODES)], false,
         (pc, v) => [], (pc, v) => [], (v: View) => v.pc, (r, was, v) => BitAnd(if was < 0 then 0 else was, mask),
         (f, v) => false, (k, b, v) => 0)
  }

  /** MOV RAX, [R14 + RBX]. */
  function LoadInsn(): Insn {
    Insn("MOV", [0x49, 0x8B, 0x04, 0x1E], [RegOp("A", false, true), MemOp(["14", "B"])], false,
         (pc, v) => [Access(Sum(v) % TWO64, 8)], (pc, v) => [], (v: View) => v.pc,
         (r, was, v: View) => if v.loaded == [] then 0 else LittleEndian(v.loaded[0]), (f, v) => false, (k, b, v) => 0)
  }

  /** A branch over a masked load, for any contract: the load may run speculatively or be skipped so. */
  ghost predicate IsSandboxedLoad(k: Contract, mask: nat) {
    k.prog == map[0 := BranchInsn(), 2 := MaskInsn(mask), 9 := LoadInsn()]
  }

  lemma BranchOperands()
    ensures DestRegs(BranchInsn().operands) == ["RIP"] && FlagModes(BranchInsn().operands) == READS_ZF
  {
    var first := [FlagsOp(READS_ZF)];
    assert BranchInsn().operands[..1] == first && first[..0] == [];
    assert DestRegs(first) == [] && FlagModes(first) == READS_ZF;
  }

  lemma MaskOperands(mask: nat)
    ensures DestRegs(MaskInsn(mask).operands) == ["B"] && AddressRegs(MaskInsn(mask).operands) == []
  {
    var first := [RegOp("B", true, true)];
    assert MaskInsn(mask).operands[..1] == first && first[..0] == [];
    assert DestRegs(first) == ["B"] && AddressRegs(first) == [];
  }

  lemma LoadOperands()
    ensures DestRegs(LoadInsn().operands) == ["A"] && AddressRegs(LoadInsn().operands) == ["14", "B"]
  {
    var first := [RegOp("A", false, true)];
    assert LoadInsn().operands[..1] == first && first[..0] == [];
    assert DestRegs(first) == ["A"] && AddressRegs(first) == [];
  }

  lemma BranchIsListed()
    ensures IsaJump(BranchInsn().code) == Jcc(4, 11) && JumpIsListed(BranchInsn())
    ensures "RIP" in DestRegs(BranchInsn().operands)
  {
    BranchOperands();
    assert ModeOf(READS_ZF, ZF) == Read;
  }

  lemma InsnsAreTrackable(mask: nat)
    ensures Trackable(BranchInsn()) && Trackable(MaskInsn(mask)) && Trackable(LoadInsn())
    ensures ValidEncoding(BranchInsn().code) && ValidEncoding(MaskInsn(mask).code) && ValidEncoding(LoadInsn().code)
    ensures forall x: Cpu ::
      StoresOf(BranchInsn(), x) == StoresOf(MaskInsn(mask), x) == StoresOf(LoadInsn(), x) == []
  {
    BranchIsListed();
  }

  lemma SandboxedLoadIsTrackable(k: Contract, mask: nat)
    requires IsSandboxedLoad(k, mask)
    ensures TrackableProgram(k)
  {
    InsnsAreTrackable(mask);
    forall pc | pc in k.prog
      ensures k.prog[pc] == BranchInsn() || k.prog[pc] == MaskInsn(mask) || k.prog[pc] == LoadInsn()
    {
    }
  }

  lemma SumOfTwo(v: seq<int>)
    requires |v| == 2
    ensures Sum(v) == v[0] + v[1]
  {
    assert v[..1][..0] == [] && Sum(v[..1]) == v[0];
  }

  lemma LoadIsMasked()
    ensures AccessesMasked(LoadInsn(), 9, map[9 := "B"])
  {
    LoadOperands();
    forall v: seq<int> | |v| == 2 ensures AtSum(LoadInsn().loads(9, v), v) && AtSum(LoadInsn().stores(9, v), v) {
      SumOfTwo(v);
    }
  }

  lemma BranchIsSandboxed(mask: nat)
    ensures SandboxedInsn(BranchInsn(), 0, map[9 := "B"], mask)
  {
    BranchOperands();
    BranchIsListed();
    assert DecodeTarget(BranchInsn().code) == 11;
  }

  lemma MaskIsSandboxed(mask: nat)
    ensures SandboxedInsn(MaskInsn(mask), 2, map[9 := "B"], mask)
  {
    MaskOperands(mask);
    forall was: int, v: View | 0 <= was < TWO64 ensures 0 <= MaskInsn(mask).regOut("B", was, v) <= mask {
      assert MaskInsn(mask).regOut("B", was, v) == BitAnd(was, mask);
    }
    assert MasksRegister(MaskInsn(mask), "B", mask);
  }

  lemma LoadIsSandboxed(mask: nat)
    ensures SandboxedInsn(LoadInsn(), 9, map[9 := "B"], mask)
  {
    LoadOperands();
    LoadIsMasked();
  }

  /** Its program is sandboxed: RBX is masked where the load is. */
  lemma SandboxedLoadIsSandboxed(k: Contract, mask: nat)
    requires IsSandboxedLoad(k, mask) && ValidProgram(k)
    ensures Sandboxed(k, map[9 := "B"], mask)
  {
    BranchIsSandboxed(mask);
    MaskIsSandboxed(mask);
    LoadIsSandboxed(mask);
  }
}

/** Single moves of the contracts in terms of the machine alone: when speculation starts and where it leads, what a
    bypassed store leaves in memory, when a level is stopped, and what one instruction adds to the traces. */
module SpeculationSteps {
  import opened Machine
  import opened Speculation
  import opened TwoRuns

  // ----- Mispredicted branches -----

  /** The displacement as the decoder reads it, without its sign. */
  function UnsignedDisp(code: seq<int>): int {
    var j := IsaJump(code);
    if j.NoJump? then 0 else j.disp % (if |code| == 2 then 0x100 else 0x1_0000_0000)
  }

  lemma TargetIsUnsigned(code: seq<int>)
    requires ValidEncoding(code)
    ensures DecodeTarget(code) == UnsignedDisp(code)
  {
    var j := IsaJump(code);
    if |code| == 2 && !j.NoJump? {
      ByteSigned(code[1]);
    } else if !j.NoJump? {
      LittleEndian4(code[2..]);
      WordSigned(LittleEndian(code[2..]));
    }
  }

  lemma ByteSigned(v: int)
    requires 0 <= v < 0x100
    ensures Signed(v, 0x80) % 0x100 == v
  {
  }

  lemma WordSigned(v: int)
    requires 0 <= v < 0x1_0000_0000
    ensures Signed(v, 0x8000_0000) % 0x1_0000_0000 == v
  {
  }

  /** Under the conditional-branch contract a running configuration opens a level exactly at a conditional jump with a
      displacement other than 0 while there are fewer levels than the nesting bound allows. No other instruction
      does, and no other clause than a bypass. */
  lemma MispredictionHappens(k: Contract, c: Config)
    requires ValidProgram(k) && WellStacked(c) && Running(k, c) && !k.execution.Bpas?
    ensures var j := IsaJump(k.prog[c.cpu.pc].code);
            var opens := k.execution.Cond? && !j.NoJump? && j.disp != 0 && |c.saved| < k.nesting;
            |Step(k, c).saved| == |c.saved| + (if opens then 1 else 0)
            && Step(k, c).saved[..|c.saved|] == c.saved
  {
    var o := Observe(k, c);
    DecodeIsCorrect(k.prog[c.cpu.pc].code, c.cpu.flags, c.cpu.regs["C"]);
    if !Mispredicts(k, o) {
      assert BypassHook(k, o) == o;
      ExecuteFrame(k, o);
    }
  }

  /** The two successors of a conditional jump; the taken one with the displacement read unsigned. */
  function Successors(code: seq<int>, pc: int): (int, int) {
    (pc + |code|, pc + |code| + UnsignedDisp(code))
  }

  /** It then goes on at the successor that the jump does not take, with the registers, flags and memory that executing
      the jump gives, and the level resumes at the one that it takes. Only the PC of the jump is observed. */
  lemma MispredictionLeads(k: Contract, c: Config)
    requires ValidProgram(k) && WellStacked(c) && Running(k, c)
    requires !k.execution.Bpas? && |Step(k, c).saved| > |c.saved|
    ensures var i := k.prog[c.cpu.pc];
            var x := Exec(i, c.cpu);
            var r := Step(k, c);
            var (fall, target) := Successors(i.code, c.cpu.pc);
            var taken := !IsaJump(i.code).NoJump? && Taken(IsaJump(i.code), c.cpu.flags, c.cpu.regs["C"]);
            && r.cpu == x.(pc := if taken then fall else target)
            && r.saved[|c.saved|] == Saved(if taken then target else fall, x.regs, x.flags, r.window, x.mem)
            && r.trace == c.trace + [c.cpu.pc]
            && r.logs == c.logs + [[]]
  {
    MispredictionHappens(k, c);
    var code := k.prog[c.cpu.pc].code;
    DecodeIsCorrect(code, c.cpu.flags, c.cpu.regs["C"]);
    TargetIsUnsigned(code);
    MispredictEffect(k, Observe(k, c));
  }

  /** For a forward jump these are the successor that it does not take and the one that it takes. */
  lemma ForwardMisprediction(k: Contract, c: Config)
    requires ValidProgram(k) && WellStacked(c) && Running(k, c)
    requires k.execution.Cond? && |c.saved| < k.nesting
    requires !IsaJump(k.prog[c.cpu.pc].code).NoJump? && IsaJump(k.prog[c.cpu.pc].code).disp > 0
    ensures var i := k.prog[c.cpu.pc];
            var next := Exec(i, c.cpu).pc;
            var r := Step(k, c);
            var fall := c.cpu.pc + |i.code|;
            var target := fall + IsaJump(i.code).disp;
            && |r.saved| == |c.saved| + 1 && r.saved[|c.saved|].next == next
            && ((next == fall && r.cpu.pc == target) || (next == target && r.cpu.pc == fall))
  {
    var i := k.prog[c.cpu.pc];
    MispredictionHappens(k, c);
    MispredictionLeads(k, c);
    DispFits(i.code);
    JumpLeads(i, c.cpu);
  }

  lemma JumpLeads(i: Insn, c: Cpu)
    requires !IsaJump(i.code).NoJump?
    ensures Exec(i, c).pc ==
              c.pc + |i.code| + if Taken(IsaJump(i.code), c.flags, c.regs["C"]) then IsaJump(i.code).disp else 0
  {
  }

  lemma DispFits(code: seq<int>)
    requires ValidEncoding(code) && !IsaJump(code).NoJump? && IsaJump(code).disp > 0
    ensures UnsignedDisp(code) == IsaJump(code).disp
  {
    if |code| == 6 {
      LittleEndian4(code[2..]);
    }
  }

  // ----- Stops -----

  /** The instruction hook asks the emulator to stop exactly at a fence or behind the window of a level; the window
      counts in speculation alone. */
  lemma StopsExactly(k: Contract, c: Config)
    requires ValidProgram(k) && WellStacked(c) && Running(k, c)
    ensures var i := k.prog[c.cpu.pc];
            var r := Step(k, c);
            && (r.stopped <==> c.inSpec && (i.name == "LFENCE" || i.name == "MFENCE" || c.window + 1 > k.window))
            && r.window == if c.inSpec then c.window + 1 else c.window
  {
    var o := Observe(k, c);
    if !Mispredicts(k, o) {
      ExecuteFrame(k, BypassHook(k, o));
    }
  }

  /** So either fence ends its level: it has no effect of its own, and the next move rolls the level back. */
  lemma FenceEndsLevel(k: Contract, c: Config)
    requires ValidProgram(k) && WellStacked(c) && Running(k, c) && !k.execution.Bpas? && c.inSpec
    requires k.prog[c.cpu.pc].name in {"LFENCE", "MFENCE"} && IsaJump(k.prog[c.cpu.pc].code).NoJump?
    ensures var d := Step(k, c);
            var e := Step(k, d);
            var n := |c.saved| - 1;
            && d.cpu == c.cpu && d.trace == e.trace == c.trace + [c.cpu.pc]
            && e.saved == c.saved[..n] && e.cpu.pc == c.saved[n].next && !e.stopped
  {
    MispredictionHappens(k, c);
    StopsExactly(k, c);
    var o := Observe(k, c);
    assert BypassHook(k, o) == o && !Mispredicts(k, o);
  }

  // ----- Bypassed stores -----

  /** The machine that the next instruction runs on: a store that is pending below the nesting bound, at an address
      other than 0, is taken back first. */
  function RunsOn(k: Contract, c: Config): Cpu {
    if k.execution.Bpas? && |c.saved| < k.nesting && c.last.LastStore? && c.last.addr != 0 then
      c.cpu.(mem := WriteBytes(c.cpu.mem, c.last.addr, c.last.before))
    else c.cpu
  }

  /** A running configuration of the bypass contract opens a level exactly when there is such a store. The level
      resumes at the same instruction, on the machine with the store. */
  lemma BypassHappens(k: Contract, c: Config)
    requires ValidProgram(k) && WellStacked(c) && Running(k, c) && k.execution.Bpas?
    ensures var r := Step(k, c);
            r.saved ==
              if |c.saved| < k.nesting && c.last.LastStore? && c.last.addr != 0
              then c.saved + [Saved(c.cpu.pc, c.cpu.regs, c.cpu.flags, r.window, c.cpu.mem)] else c.saved
  {
    ExecuteFrame(k, BypassHook(k, Observe(k, c)));
  }

  /** Under every contract an instruction that is neither mispredicted nor stopped has its plain effect on the machine
      it runs on. */
  lemma InstructionRuns(k: Contract, c: Config)
    requires ValidProgram(k) && WellStacked(c) && Running(k, c) && !Step(k, c).stopped
    requires k.execution.Cond? ==> Step(k, c).saved == c.saved
    ensures Step(k, c).cpu == Exec(k.prog[c.cpu.pc], RunsOn(k, c))
  {
    var o := Observe(k, c);
    assert !Mispredicts(k, o);
    var h := BypassHook(k, o);
    assert h.cpu == RunsOn(k, c);
    ExecuteFrame(k, h);
  }

  /** The store that is pending behind some stores. */
  function Pending(i: Insn, v: View, m: Mem, stores: seq<Access>): LastStore
    requires stores != []
  {
    var n := |stores| - 1;
    LastStore(stores[n].addr, ReadBytes(DoStores(i, v, m, stores[..n]), stores[n].addr, stores[n].size),
              StoreBytes(i, v, n, stores[n].size))
  }

  lemma StoreHooksPend(k: Contract, c: Config, i: Insn, v: View, stores: seq<Access>)
    requires i.code != [] && k.execution.Bpas?
    ensures StoreHooks(k, c, i, v, stores).last ==
              if stores == [] || IsCall(i) then c.last else Pending(i, v, c.cpu.mem, stores)
    decreases |stores|
  {
    if stores != [] {
      var n := |stores| - 1;
      StoreHooksFrame(k, c, i, v, stores[..n]);
      if IsCall(i) {
        StoreHooksPend(k, c, i, v, stores[..n]);
      }
    }
  }

  /** After an instruction below the nesting bound its last store is pending, unless it is a CALL, and no other is. */
  lemma InstructionPends(k: Contract, c: Config)
    requires ValidProgram(k) && WellStacked(c) && Running(k, c) && !Step(k, c).stopped
    requires k.execution.Bpas? && |c.saved| < k.nesting
    ensures var i := k.prog[c.cpu.pc];
            var x := RunsOn(k, c);
            Step(k, c).last ==
              if StoresOf(i, x) == [] || i.code[0] in {0xE8, 0xFF, 0x9A} then NoStore
              else Pending(i, ViewOf(i, x), x.mem, StoresOf(i, x))
  {
    var i := k.prog[c.cpu.pc];
    var h := BypassHook(k, Observe(k, c));
    assert h.cpu == RunsOn(k, c) && h.last == NoStore;
    LoadHooksFrame(k, h, LoadsOf(i, h.cpu));
    StoreHooksPend(k, LoadHooks(k, h, LoadsOf(i, h.cpu)), i, ViewOf(i, h.cpu), StoresOf(i, h.cpu));
  }

  /** Over two moves: the next instruction bypasses the last store of an instruction, if that is no CALL and the store
      is not at address 0. It runs on a memory that holds, at the bytes of this store, what was there before it, after
      the instruction's other stores; elsewhere the memory is as the instruction left it. */
  lemma StoreIsBypassed(k: Contract, c: Config) returns (m: Mem)
    requires ValidProgram(k) && WellStacked(c) && Running(k, c) && !Step(k, c).stopped
    requires k.execution.Bpas? && |Step(k, c).saved| < k.nesting
    requires var i := k.prog[c.cpu.pc];
             var stores := StoresOf(i, RunsOn(k, c));
             i.code[0] !in {0xE8, 0xFF, 0x9A} && stores != [] && stores[|stores| - 1].addr != 0
    requires Running(k, Step(k, c)) && !Step(k, Step(k, c)).stopped
    ensures var i := k.prog[c.cpu.pc];
            var x := RunsOn(k, c);
            var n := |StoresOf(i, x)| - 1;
            var a := StoresOf(i, x)[n];
            var d := Step(k, c);
            var e := Step(k, d);
            && d.cpu == Exec(i, x) && |e.saved| == |d.saved| + 1
            && e.cpu == Exec(k.prog[d.cpu.pc], d.cpu.(mem := m))
            && (forall b {:trigger m[b]} :: m[b] ==
                  if a.addr <= b < a.addr + a.size then DoStores(i, ViewOf(i, x), x.mem, StoresOf(i, x)[..n])[b]
                  else d.cpu.mem[b])
  {
    var d := Step(k, c);
    BypassHappens(k, c);
    InstructionRuns(k, c);
    InstructionPends(k, c);
    BypassHappens(k, d);
    InstructionRuns(k, d);
    m := RunsOn(k, d).mem;
  }

  /** If the instruction makes a single store, the next one runs on the memory from before it. */
  lemma OnlyStoreIsBypassed(k: Contract, c: Config)
    requires ValidProgram(k) && WellStacked(c) && Running(k, c) && !Step(k, c).stopped
    requires k.execution.Bpas? && |Step(k, c).saved| < k.nesting
    requires var i := k.prog[c.cpu.pc];
             var stores := StoresOf(i, RunsOn(k, c));
             i.code[0] !in {0xE8, 0xFF, 0x9A} && |stores| == 1 && stores[0].addr != 0
    requires Running(k, Step(k, c)) && !Step(k, Step(k, c)).stopped
    ensures var d := Step(k, c);
            Step(k, d).cpu == Exec(k.prog[d.cpu.pc], d.cpu.(mem := RunsOn(k, c).mem))
  {
    var i := k.prog[c.cpu.pc];
    var x := RunsOn(k, c);
    var m := StoreIsBypassed(k, c);
    InstructionRuns(k, c);
    StoreTakenBack(i, x, Exec(i, x).mem, m);
  }

  lemma StoreTakenBack(i: Insn, x: Cpu, after: Mem, m: Mem)
    requires IsaJump(i.code).NoJump? && |StoresOf(i, x)| == 1
    requires after == DoStores(i, ViewOf(i, x), x.mem, StoresOf(i, x))
    requires var a := StoresOf(i, x)[0];
             forall b {:trigger m[b]} :: m[b] ==
               if a.addr <= b < a.addr + a.size then DoStores(i, ViewOf(i, x), x.mem, StoresOf(i, x)[..0])[b]
               else after[b]
    ensures m == x.mem
  {
    var stores := StoresOf(i, x);
    assert stores[..0] == [];
    StoresElsewhere(i, ViewOf(i, x), x.mem, stores);
    SameMemory(m, x.mem);
  }

  lemma StoresElsewhere(i: Insn, v: View, m: Mem, stores: seq<Access>)
    requires |stores| == 1
    ensures forall b {:trigger DoStores(i, v, m, stores)[b]} ::
              !(stores[0].addr <= b < stores[0].addr + stores[0].size) ==> DoStores(i, v, m, stores)[b] == m[b]
  {
    assert stores[..0] == [];
  }

  lemma SameMemory(m: Mem, m': Mem)
    requires forall b :: m[b] == m'[b]
    ensures m == m'
  {
    assert Total(m) && Total(m');
    assert forall b :: b in m ==> m[b] == m'[b];
  }

  // ----- The traces of one instruction -----

  function LoadEntries(loads: seq<Access>, values: seq<seq<int>>): seq<TracedAccess>
    requires |loads| == |values|
  {
    seq(|loads|, n requires 0 <= n < |loads| => TracedAccess(loads[n].addr, LittleEndian(values[n]), false))
  }

  function StoreEntries(i: Insn, v: View, stores: seq<Access>): seq<TracedAccess> {
    seq(|stores|, n requires 0 <= n < |stores| =>
      TracedAccess(stores[n].addr, LittleEndian(StoreBytes(i, v, n, stores[n].size)), true))
  }

  function Extended(before: seq<Traced>, e: Traced, entries: seq<TracedAccess>): seq<Traced> {
    before + [e.(accesses := e.accesses + entries)]
  }

  lemma ExtendedByNone(before: seq<Traced>, e: Traced)
    ensures Extended(before, e, []) == before + [e]
  {
    assert e.accesses + [] == e.accesses;
  }

  lemma ExtendedByOne(before: seq<Traced>, e: Traced, first: seq<TracedAccess>, last: TracedAccess)
    ensures AppendAccess(Extended(before, e, first), last) == Extended(before, e, first + [last])
  {
    assert e.accesses + (first + [last]) == e.accesses + first + [last];
  }

  lemma {:induction false} LoadHooksRecord(k: Contract, c: Config, loads: seq<Access>, before: seq<Traced>, e: Traced)
    requires !c.inSpec && c.exec == before + [e]
    ensures LoadHooks(k, c, loads).exec == Extended(before, e, LoadEntries(loads, Loaded(c.cpu.mem, loads)))
  {
    if loads == [] {
      ExtendedByNone(before, e);
    } else {
      var n := |loads| - 1;
      LoadHooksRecord(k, c, loads[..n], before, e);
      LoadHooksFrame(k, c, loads[..n]);
      var first := LoadEntries(loads[..n], Loaded(c.cpu.mem, loads[..n]));
      var last := TracedAccess(loads[n].addr, LittleEndian(ReadBytes(c.cpu.mem, loads[n].addr, loads[n].size)), false);
      assert LoadEntries(loads, Loaded(c.cpu.mem, loads)) == first + [last];
      ExtendedByOne(before, e, first, last);
    }
  }

  lemma StoreEntriesNext(i: Insn, v: View, stores: seq<Access>)
    requires stores != []
    ensures var n := |stores| - 1;
            StoreEntries(i, v, stores) ==
              StoreEntries(i, v, stores[..n])
              + [TracedAccess(stores[n].addr, LittleEndian(StoreBytes(i, v, n, stores[n].size)), true)]
  {
  }

  lemma {:induction false} StoreHooksRecord(k: Contract, c: Config, i: Insn, v: View, stores: seq<Access>,
                                            before: seq<Traced>, e: Traced)
    requires i.code != [] && !c.inSpec && c.exec == before + [e]
    ensures StoreHooks(k, c, i, v, stores).exec == Extended(before, e, StoreEntries(i, v, stores))
  {
    if stores == [] {
      assert StoreEntries(i, v, stores) == [];
      ExtendedByNone(before, e);
    } else {
      var n := |stores| - 1;
      StoreHooksRecord(k, c, i, v, stores[..n], before, e);
      StoreHooksFrame(k, c, i, v, stores[..n]);
      StoreEntriesNext(i, v, stores);
      ExtendedByOne(before, e, StoreEntries(i, v, stores[..n]),
                    TracedAccess(stores[n].addr, LittleEndian(StoreBytes(i, v, n, stores[n].size)), true));
    }
  }

  lemma ExecuteRecords(k: Contract, c: Config, before: seq<Traced>, pc: int)
    requires ValidProgram(k) && c.cpu.pc in k.prog && !c.inSpec && c.exec == before + [Traced(pc, [])]
    ensures var i := k.prog[c.cpu.pc];
            var loads := LoadEntries(LoadsOf(i, c.cpu), Loaded(c.cpu.mem, LoadsOf(i, c.cpu)));
            Execute(k, c).exec ==
              before + [Traced(pc, loads + StoreEntries(i, ViewOf(i, c.cpu), StoresOf(i, c.cpu)))]
  {
    var i := k.prog[c.cpu.pc];
    var loads := LoadEntries(LoadsOf(i, c.cpu), Loaded(c.cpu.mem, LoadsOf(i, c.cpu)));
    LoadHooksRecord(k, c, LoadsOf(i, c.cpu), before, Traced(pc, []));
    assert [] + loads == loads;
    LoadHooksFrame(k, c, LoadsOf(i, c.cpu));
    StoreHooksRecord(k, LoadHooks(k, c, LoadsOf(i, c.cpu)), i, ViewOf(i, c.cpu), StoresOf(i, c.cpu), before,
                     Traced(pc, loads));
  }

  /** Under every contract an instruction that is neither mispredicted nor stopped adds to the contract trace its PC,
      the addresses of its loads, with their values under arch, and the addresses of its stores. */
  lemma InstructionTraces(k: Contract, c: Config)
    requires ValidProgram(k) && WellStacked(c) && Running(k, c) && !Step(k, c).stopped
    requires k.execution.Cond? ==> Step(k, c).saved == c.saved
    ensures var i := k.prog[c.cpu.pc];
            var x := RunsOn(k, c);
            Step(k, c).trace == c.trace + [c.cpu.pc]
                                + LoadTrace(k.observation, LoadsOf(i, x), Loaded(x.mem, LoadsOf(i, x)))
                                + StoreTrace(k.observation, StoresOf(i, x))
  {
    var o := Observe(k, c);
    assert !Mispredicts(k, o);
    var h := BypassHook(k, o);
    assert h.cpu == RunsOn(k, c) && h.trace == o.trace;
    ExecuteTrace(k, h);
  }

  /** Outside of speculation it adds its PC with its loads and then its stores, in order and with their values, to the
      execution trace; in speculation nothing. */
  lemma InstructionIsRecorded(k: Contract, c: Config)
    requires ValidProgram(k) && WellStacked(c) && Running(k, c) && !Step(k, c).stopped && !k.execution.Bpas?
    ensures var i := k.prog[c.cpu.pc];
            var x := c.cpu;
            Step(k, c).exec ==
              if c.saved != [] then c.exec
              else c.exec + [Traced(x.pc, LoadEntries(LoadsOf(i, x), Loaded(x.mem, LoadsOf(i, x)))
                                          + StoreEntries(i, ViewOf(i, x), StoresOf(i, x)))]
  {
    var i := k.prog[c.cpu.pc];
    var o := Observe(k, c);
    assert BypassHook(k, o) == o;
    if Mispredicts(k, o) {
      DecodeIsCorrect(i.code, c.cpu.flags, c.cpu.regs["C"]);
      assert LoadEntries(LoadsOf(i, c.cpu), Loaded(c.cpu.mem, LoadsOf(i, c.cpu)))
             + StoreEntries(i, ViewOf(i, c.cpu), StoresOf(i, c.cpu)) == [];
    } else if c.saved != [] {
      ExecuteFrame(k, o);
    } else {
      ExecuteRecords(k, o, c.exec, c.cpu.pc);
    }
  }
}

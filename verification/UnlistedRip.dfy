/** Why taint soundness asks that control flow lists RIP as a destination: the terminators that the generator
    builds list the flags they read and nothing else, and for them the tainted words are too few. */
module UnlistedRip {
  import opened Flags
  import opened Machine
  import opened Speculation
  import opened Taint
  import opened TaintSoundness
  import opened TwoRuns
  import opened Inputs
  import opened Arithmetic

  function Plain(code: seq<int>, operands: seq<Operand>, controlFlow: bool): Insn {
    Insn("", code, operands, controlFlow, (pc, v) => [], (pc, v) => [], (v: View) => v.pc,
         (r, was, v) => was, (f, v) => false, (k, b, v) => 0)
  }

  /** JZ over the next instruction, and an instruction without operands. */
  const JZ: Insn := Plain([0x74, 2], [FlagsOp(READS_ZF)], true)
  const NOP: Insn := Plain([0x90], [], false)

  function Program(base: int): Contract {
    Contract(map[0 := JZ, 2 := NOP, 3 := NOP, 4 := NOP], Seq, Ct, 0, 0, base)
  }

  /** Nothing is written and only RIP is pending. */
  predicate OnlyRip(t: Tracker) {
    && t.deps == map[] && t.tainted <= {RegLabel("RIP")} && t.checkpoints == []
    && (t.active ==> Targets(t) == [] && t.pending <= [RegLabel("RIP")])
  }

  lemma SettlesToRip(t: Tracker)
    requires OnlyRip(t)
    ensures Settle(t).deps == map[] && Settle(t).tainted <= {RegLabel("RIP")} && Settle(t).checkpoints == []
  {
    if t.active {
      assert Spread(t.deps, [], UnionOf(t.deps, Sources(t))) == map[];
      if t.pending != [] {
        assert t.pending == [RegLabel("RIP")] && t.pending[..0] == [];
        assert UnionOf(map[], t.pending) == {RegLabel("RIP")};
      }
    }
  }

  lemma NoneWritten(m: Modes)
    requires m == READS_ZF || m == UNUSED
    ensures WriteFlags(m) == []
  {
    assert forall f :: ModeOf(m, f) !in {Write, ReadWrite, ReadCondWrite};
    if WriteFlags(m) != [] {
      var f := First(WriteFlags(m));
    }
  }

  lemma First(fs: seq<Flag>) returns (f: Flag)
    requires fs != []
    ensures f in fs
  {
    f := fs[0];
  }

  lemma StartsWithRip(t: Tracker, i: Insn)
    requires OnlyRip(t) && (i == JZ || i == NOP)
    ensures OnlyRip(TaintPc(StartInstruction(t, i)))
  {
    SettlesToRip(t);
    var r := TaintPc(StartInstruction(t, i));
    assert DestRegs(i.operands) == [] by {
      if i == JZ {
        assert i.operands[..0] == [];
      }
    }
    var m := FlagModes(i.operands);
    assert m == READS_ZF || m == UNUSED;
    assert WriteFlags(m) == [] by { NoneWritten(m); }
    assert Targets(r) == [];
  }

  ghost predicate IsProgram(k: Contract) {
    ValidProgram(k) && k == Program(k.base)
  }

  ghost predicate Between(c: Config) {
    c.cpu.pc in {0, 2, 3, 4} && c.saved == [] && c.logs == [] && !c.inSpec && !c.stopped
  }

  lemma ModelStep(k: Contract, c: Config)
    requires IsProgram(k) && Between(c)
    ensures var d := Step(k, c);
            && d.cpu == Exec(k.prog[c.cpu.pc], c.cpu) && d.trace == c.trace + [c.cpu.pc]
            && !d.stopped && d.saved == [] && d.logs == [] && !d.inSpec
  {
    var i := k.prog[c.cpu.pc];
    assert i == JZ || i == NOP;
    var o := Observe(k, c);
    assert LoadsOf(i, o.cpu) == [] && StoresOf(i, o.cpu) == [];
    ExecuteFrame(k, o);
    assert Advance(k, c) == Execute(k, o);
  }

  lemma TrackerStep(k: Contract, c: Config, t: Tracker)
    requires IsProgram(k) && Between(c) && OnlyRip(t)
    ensures OnlyRip(TrackStep(k, c, t))
  {
    var i := k.prog[c.cpu.pc];
    assert i == JZ || i == NOP;
    assert LoadsOf(i, c.cpu) == [] && StoresOf(i, c.cpu) == [];
    StartsWithRip(t, i);
    assert TrackStep(k, c, t) == TaintPc(StartInstruction(t, i));
  }

  lemma JumpsOnZf(c: Cpu)
    requires c.pc == 0
    ensures Exec(JZ, c).pc == if c.flags[ZF] then 4 else 2
  {
    assert IsaJump(JZ.code) == Jcc(4, 2);
  }

  lemma BranchStep(k: Contract, c: Config)
    requires IsProgram(k) && Between(c) && c.cpu.pc == 0
    ensures Between(Step(k, c)) && Step(k, c).trace == c.trace + [0]
    ensures Step(k, c).cpu.pc == if c.cpu.flags[ZF] then 4 else 2
  {
    ModelStep(k, c);
    JumpsOnZf(c.cpu);
  }

  lemma RunTwo(k: Contract, c: Config, n: nat)
    requires ValidProgram(k) && WellStacked(c) && n == 2
    ensures Run(k, c, n) == Step(k, Step(k, c))
  {
    assert Run(k, c, n) == Run(k, Step(k, c), n - 1);
    assert Run(k, Step(k, c), n - 1) == Run(k, Step(k, Step(k, c)), n - 2);
  }

  lemma TwoMoves(k: Contract, c: Config)
    requires IsProgram(k) && Between(c) && c.cpu.pc == 0 && c.trace == []
    ensures Step(k, Step(k, c)).trace == [0, if c.cpu.flags[ZF] then 4 else 2]
  {
    BranchStep(k, c);
    ModelStep(k, Step(k, c));
  }

  lemma TwoSteps(k: Contract, c: Config, n: nat)
    requires IsProgram(k) && Between(c) && c.cpu.pc == 0 && c.trace == [] && n == 2
    ensures Run(k, c, n).trace == [0, if c.cpu.flags[ZF] then 4 else 2]
  {
    TwoMoves(k, c);
    RunTwo(k, c, n);
  }

  lemma TwoTrackerSteps(k: Contract, c: Config, n: nat)
    requires IsProgram(k) && Between(c) && c.cpu.pc == 0 && n == 2
    ensures OnlyRip(TrackRun(k, c, Initial({}), n))
  {
    var t := Initial({});
    BranchStep(k, c);
    TrackerStep(k, c, t);
    RunUnfolds(k, c, t, n);
    TrackerStep(k, Step(k, c), TrackStep(k, c, t));
    RunUnfolds(k, Step(k, c), TrackStep(k, c, t), n - 1);
  }

  lemma ZfBit()
    ensures Bit(64, 6) && !Bit(0, 6)
  {
    assert Pow2(3) == 8;
    assert Pow2(6) == 64;
  }

  lemma NothingTainted(k: Contract, y: Layout, rest: Cpu, a: seq<int>, n: nat)
    requires ValidProgram(k) && ValidInput(y, a) && k.observation.Ct?
    requires OnlyRip(TrackRun(k, StartOn(k, y, rest, a), Initial({}), n))
    ensures forall j :: 0 <= j < y.DataSize() ==> !TaintOf(k, y, rest, a, n)[j]
  {
    var t := TrackRun(k, StartOn(k, y, rest, a), Initial({}), n);
    SettlesToRip(t);
    forall j | 0 <= j < y.DataSize() ensures !IsTainted(Settle(t).tainted, y.registerStart, j) {
    }
  }

  lemma StartsAt(k: Contract, y: Layout, rest: Cpu, a: seq<int>)
    requires ValidInput(y, a) && rest.pc == 0 && k.observation.Ct?
    ensures var c := StartOn(k, y, rest, a);
            Between(c) && c.cpu.pc == 0 && c.trace == [] && c.cpu.flags[ZF] == Bit(a[y.registerStart + 6], 6)
  {
    assert Position(ZF) < |FLAG_NAMES|;
    assert LoadedFlags(y, a)[ZF] == LoadedFlag(a[y.registerStart + 6], ZF);
  }

  lemma ProgramIsValid(base: int)
    ensures IsProgram(Program(base))
  {
    forall pc | pc in Program(base).prog ensures ValidEncoding(Program(base).prog[pc].code) {
      assert Program(base).prog[pc] == JZ || Program(base).prog[pc] == NOP;
    }
  }

  lemma DifferentTraces(y: Layout, rest: Cpu, k: Contract, n: nat) returns (a: seq<int>, b: seq<int>)
    requires rest.pc == 0 && 8 * y.DataSize() <= TWO64 && IsProgram(k) && n == 2
    ensures ZF in ReadFlags(FlagModes(JZ.operands))
    ensures ValidInput(y, a) && ValidInput(y, b)
    ensures AgreeOn(TaintOf(k, y, rest, a, n), a, b)
    ensures Run(k, StartOn(k, y, rest, a), n).trace != Run(k, StartOn(k, y, rest, b), n).trace
  {
    a := seq(y.DataSize(), i => 0);
    b := a[y.registerStart + 6 := 64];
    ZfBit();
    assert ModeOf(FlagModes(JZ.operands), ZF) == Read;
    StartsAt(k, y, rest, a);
    StartsAt(k, y, rest, b);
    TwoSteps(k, StartOn(k, y, rest, a), n);
    TwoSteps(k, StartOn(k, y, rest, b), n);
    TwoTrackerSteps(k, StartOn(k, y, rest, a), n);
    NothingTainted(k, y, rest, a, n);
    assert Run(k, StartOn(k, y, rest, a), n).trace[1] != Run(k, StartOn(k, y, rest, b), n).trace[1];
  }

  /** Two inputs that differ in FLAGS alone, of which no word is tainted by the run of the first, and
      whose traces differ. The flag that decides the branch is listed as read. */
  lemma UnlistedRipIsUnsound(y: Layout, rest: Cpu, base: int)
      returns (k: Contract, n: nat, a: seq<int>, b: seq<int>)
    requires rest.pc == 0 && 8 * y.DataSize() <= TWO64
    ensures IsProgram(k) && ZF in ReadFlags(FlagModes(JZ.operands))
    ensures ValidInput(y, a) && ValidInput(y, b)
    ensures AgreeOn(TaintOf(k, y, rest, a, n), a, b)
    ensures Run(k, StartOn(k, y, rest, a), n).trace != Run(k, StartOn(k, y, rest, b), n).trace
  {
    k, n := Program(base), 2;
    ProgramIsValid(base);
    a, b := DifferentTraces(y, rest, k, n);
  }

  // ----- Every conditional jump -----

  /** The labels of all that a conditional jump tests are trusted. */
  ghost predicate DecidersTrusted(g: iset<Label>, d: Deps, j: Jump) {
    && (forall f {:trigger FlagLabel(f)} :: f in TestedFlags(j) ==> Trusted(g, Of(d, FlagLabel(f))))
    && (!j.Jcc? ==> Trusted(g, Of(d, RegLabel("C"))))
  }

  ghost predicate SharedDecision(g: iset<Label>, base: int, d: Deps, j: Jump)
    requires !j.NoJump?
  {
    forall x: Cpu, y: Cpu :: Agree(g, base, d, x, y) ==>
      Taken(j, x.flags, x.regs["C"]) == Taken(j, y.flags, y.regs["C"])
  }

  ghost function NoFlags(): FlagFile {
    imap f: Flag | Position(f) < |FLAG_NAMES| :: false
  }

  ghost function State(z: Cpu, c: int, flags: FlagFile): Cpu
    requires 0 <= c < TWO64
  {
    z.(regs := z.regs["C" := c], flags := flags)
  }

  /** Each tested flag decides for some values of the others. */
  lemma FlagDecides(j: Jump, f: Flag)
    requires !j.NoJump? && (j.Jcc? ==> j.cc < 16) && f in TestedFlags(j)
    ensures Taken(j, NoFlags(), 5) != Taken(j, NoFlags()[f := true], 5)
  {
    assert forall x: Flag :: !NoFlags()[x];
    assert Decrement(5) == 4;
  }

  /** And so does RCX where it is tested. */
  lemma CounterDecides(j: Jump) returns (flags: FlagFile, c: int)
    requires !j.NoJump? && !j.Jcc?
    ensures 0 <= c < 2 && Taken(j, flags, c) != Taken(j, flags, c + 1)
  {
    flags := NoFlags()[ZF := j.LoopEq?];
    c := if j.JumpCxz? then 0 else 1;
    assert Decrement(1) == 0 && Decrement(2) == 1;
  }

  lemma TrustedDecide(g: iset<Label>, base: int, d: Deps, j: Jump)
    requires !j.NoJump? && (j.Jcc? ==> j.cc < 16) && DecidersTrusted(g, d, j)
    ensures SharedDecision(g, base, d, j)
  {
    forall x: Cpu, y: Cpu | Agree(g, base, d, x, y)
      ensures Taken(j, x.flags, x.regs["C"]) == Taken(j, y.flags, y.regs["C"])
    {
      forall f | f in TestedFlags(j) ensures x.flags[f] == y.flags[f] {
        assert Trusted(g, Of(d, FlagLabel(f)));
      }
      TakenDepends(j, x.flags, y.flags, x.regs["C"]);
      if j.Jcc? {
        JccDepends(j, y.flags, x.regs["C"], y.regs["C"]);
      }
    }
  }

  lemma UntrustedFlag(g: iset<Label>, base: int, d: Deps, j: Jump, f: Flag)
    requires !j.NoJump? && (j.Jcc? ==> j.cc < 16)
    requires f in TestedFlags(j) && !Trusted(g, Of(d, FlagLabel(f)))
    ensures !SharedDecision(g, base, d, j)
  {
    var z: Cpu := *;
    var x, y := State(z, 5, NoFlags()), State(z, 5, NoFlags()[f := true]);
    assert Agree(g, base, d, x, y);
    FlagDecides(j, f);
  }

  lemma UntrustedCounter(g: iset<Label>, base: int, d: Deps, j: Jump)
    requires !j.NoJump? && !j.Jcc? && !Trusted(g, Of(d, RegLabel("C")))
    ensures !SharedDecision(g, base, d, j)
  {
    var flags, c := CounterDecides(j);
    var z: Cpu := *;
    var x, y := State(z, c, flags), State(z, c + 1, flags);
    assert Agree(g, base, d, x, y);
  }

  /** All states that agree on trusted locations decide a conditional jump alike exactly when the labels of all
      that it tests are trusted. */
  lemma DecisionIsShared(g: iset<Label>, base: int, d: Deps, j: Jump)
    requires !j.NoJump? && (j.Jcc? ==> j.cc < 16)
    ensures SharedDecision(g, base, d, j) <==> DecidersTrusted(g, d, j)
  {
    if DecidersTrusted(g, d, j) {
      TrustedDecide(g, base, d, j);
    } else if !j.Jcc? && !Trusted(g, Of(d, RegLabel("C"))) {
      UntrustedCounter(g, base, d, j);
    } else {
      var f :| f in TestedFlags(j) && !Trusted(g, Of(d, FlagLabel(f)));
      UntrustedFlag(g, base, d, j, f);
    }
  }

  /** All that is tainted when the instruction is finalised. */
  ghost function TaintedBy(t: Tracker): iset<Label> {
    iset l | l in Finalize(t).tainted
  }

  /** Listing RIP as a destination makes them so: the observed PC taints every source of the jump. */
  lemma ListedRipTaints(k: Contract, i: Insn, t: Tracker)
    requires !IsaJump(i.code).NoJump? && JumpIsListed(i) && "RIP" in DestRegs(i.operands)
    requires Recorded(k, i, [], [], t)
    ensures DecidersTrusted(TaintedBy(t), t.deps, IsaJump(i.code))
  {
    var g := TaintedBy(t);
    SourcesOfControlFlow(g, k, i, [], [], t);
    forall f | f in TestedFlags(IsaJump(i.code)) ensures Trusted(g, Of(t.deps, FlagLabel(f))) {
      FlagSourceTrusted(g, t, f);
    }
    if !IsaJump(i.code).Jcc? {
      RegSourceTrusted(g, t, "C");
    }
  }

  lemma FlagSourceTrusted(g: iset<Label>, t: Tracker, f: Flag)
    requires f in t.srcFlags && Trusted(g, UnionOf(t.deps, Sources(t)))
    ensures Trusted(g, Of(t.deps, FlagLabel(f)))
  {
    var n :| 0 <= n < |t.srcFlags| && t.srcFlags[n] == f;
    FlagIsSource(t, n);
    SourceTrusted(g, t, FlagLabel(f));
  }

  lemma RegSourceTrusted(g: iset<Label>, t: Tracker, r: string)
    requires r in t.srcRegs && Trusted(g, UnionOf(t.deps, Sources(t)))
    ensures Trusted(g, Of(t.deps, RegLabel(r)))
  {
    var n :| 0 <= n < |t.srcRegs| && t.srcRegs[n] == r;
    RegIsSource(t, n);
    SourceTrusted(g, t, RegLabel(r));
  }
}

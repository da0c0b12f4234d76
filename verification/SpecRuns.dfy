/** Whole runs of the conditional-branch contract: speculation is architecturally invisible, and a run
    completes whenever the sequential run does. */
module SpecRuns {
  import opened Machine
  import opened Speculation
  import opened UndoLogs

  function Sequential(k: Contract): Contract {
    k.(execution := Seq)
  }

  /** The decoder reads displacements as unsigned numbers, so jumps must go forward. */
  ghost predicate ForwardJumps(k: Contract) {
    forall pc :: pc in k.prog && !IsaJump(k.prog[pc].code).NoJump? ==> IsaJump(k.prog[pc].code).disp >= 0
  }

  ghost predicate CondProgram(k: Contract) {
    k.execution.Cond? && ValidProgram(k) && SmallStores(k) && ForwardJumps(k)
  }

  /** Where the run continues once all speculation is rolled back. */
  ghost function Base(c: Config): Cpu {
    if c.saved == [] then c.cpu
    else Cpu(c.saved[0].next, c.saved[0].regs, c.saved[0].flags, c.saved[0].mem)
  }

  // ----- The sequential run never speculates -----

  lemma {:induction false} SequentialIsFlat(k: Contract, c: Config, n: nat)
    requires k.execution.Seq? && ValidProgram(k) && WellStacked(c) && c.saved == [] && !c.stopped
    ensures var r := Run(k, c, n); r.saved == [] && !r.stopped
    decreases n
  {
    if n > 0 {
      if Running(k, c) {
        ExecuteFrame(k, Observe(k, c));
      }
      SequentialIsFlat(k, Step(k, c), n - 1);
    }
  }

  /** Without speculation the hooks record the same accesses under every contract. */
  lemma {:induction false} LoadsTracedAlike(k: Contract, c: Config, k': Contract, c': Config, loads: seq<Access>)
    requires c.cpu == c'.cpu && c.exec == c'.exec && !c.inSpec && !c'.inSpec
    ensures LoadHooks(k, c, loads).exec == LoadHooks(k', c', loads).exec
  {
    if loads != [] {
      LoadsTracedAlike(k, c, k', c', loads[..|loads| - 1]);
      LoadHooksFrame(k, c, loads[..|loads| - 1]);
      LoadHooksFrame(k', c', loads[..|loads| - 1]);
    }
  }

  lemma {:induction false} StoresTracedAlike(k: Contract, c: Config, k': Contract, c': Config, i: Insn, v: View,
                                             stores: seq<Access>)
    requires i.code != []
    requires c.exec == c'.exec && !c.inSpec && !c'.inSpec
    ensures StoreHooks(k, c, i, v, stores).exec == StoreHooks(k', c', i, v, stores).exec
  {
    if stores != [] {
      var n := |stores| - 1;
      StoresTracedAlike(k, c, k', c', i, v, stores[..n]);
      StoreHooksFrame(k, c, i, v, stores[..n]);
      StoreHooksFrame(k', c', i, v, stores[..n]);
    }
  }

  lemma ExecuteTracedAlike(k: Contract, c: Config, k': Contract, c': Config)
    requires ValidProgram(k) && k'.prog == k.prog && c.cpu.pc in k.prog
    requires c.cpu == c'.cpu && c.exec == c'.exec && !c.inSpec && !c'.inSpec
    ensures Execute(k, c).exec == Execute(k', c').exec
  {
    var i := k.prog[c.cpu.pc];
    var loads := LoadsOf(i, c.cpu);
    LoadsTracedAlike(k, c, k', c', loads);
    LoadHooksFrame(k, c, loads);
    LoadHooksFrame(k', c', loads);
    StoresTracedAlike(k, LoadHooks(k, c, loads), k', LoadHooks(k', c', loads), i, ViewOf(i, c.cpu),
                      StoresOf(i, c.cpu));
  }

  // ----- Invisibility -----

  /** The run so far, with its speculation rolled back, is the sequential run `s`. */
  ghost predicate Shadows(k: Contract, c: Config, s: Config) {
    && WellStacked(c) && (c.saved == [] ==> !c.stopped)
    && WellStacked(s) && s.saved == [] && !s.stopped
    && Base(c) == s.cpu
    && c.exec == s.exec
  }

  lemma Resumption(k: Contract, c: Config)
    requires CondProgram(k) && WellStacked(c) && c.cpu.pc in k.prog && Mispredicts(k, c)
    ensures var r := Mispredict(k, c);
            var top := r.saved[|c.saved|];
            && r.saved == c.saved + [top]
            && Cpu(top.next, top.regs, top.flags, top.mem) == Exec(k.prog[c.cpu.pc], c.cpu)
            && top.next > c.cpu.pc && top.window == c.window
            && LoadsOf(k.prog[c.cpu.pc], c.cpu) == StoresOf(k.prog[c.cpu.pc], c.cpu) == []
  {
    DecodeIsCorrect(k.prog[c.cpu.pc].code, c.cpu.flags, c.cpu.regs["C"]);
  }

  ghost function NextShadow(k: Contract, c: Config, c': Config, s: Config): Config
    requires ValidProgram(k) && WellStacked(s)
  {
    if |c'.exec| == |c.exec| then s else Step(Sequential(k), s)
  }

  lemma MispredictShadows(k: Contract, c: Config, s: Config)
    requires CondProgram(k) && Shadows(k, c, s) && Running(k, c) && Mispredicts(k, Observe(k, c))
    ensures var c' := Step(k, c);
            && |c'.exec| == (if c.saved == [] then |c.exec| + 1 else |c.exec|)
            && Shadows(k, c', NextShadow(k, c, c', s))
  {
    Resumption(k, Observe(k, c));
    if c.saved == [] {
      ExecuteFrame(Sequential(k), Observe(Sequential(k), s));
      assert Execute(Sequential(k), Observe(Sequential(k), s)).exec == s.exec + [Traced(s.cpu.pc, [])];
    }
  }

  lemma InstructionShadows(k: Contract, c: Config, s: Config)
    requires CondProgram(k) && Shadows(k, c, s) && Running(k, c) && !Mispredicts(k, Observe(k, c))
    ensures var c' := Step(k, c);
            && |c'.exec| == (if c.saved == [] then |c.exec| + 1 else |c.exec|)
            && Shadows(k, c', NextShadow(k, c, c', s))
  {
    var o := Observe(k, c);
    assert BypassHook(k, o) == o;
    ExecuteFrame(k, o);
    if c.saved == [] {
      ExecuteTracedAlike(k, o, Sequential(k), Observe(Sequential(k), s));
      ExecuteFrame(Sequential(k), Observe(Sequential(k), s));
    }
  }

  /** Each step either leaves the sequential run where it is or moves it by one instruction. */
  lemma StepShadows(k: Contract, c: Config, s: Config)
    requires CondProgram(k) && LogsRestore(c) && Shadows(k, c, s)
    ensures var c' := Step(k, c);
            && |c'.exec| == (if Running(k, c) && c.saved == [] then |c.exec| + 1 else |c.exec|)
            && Shadows(k, c', NextShadow(k, c, c', s))
  {
    if Running(k, c) {
      if Mispredicts(k, Observe(k, c)) {
        MispredictShadows(k, c, s);
      } else {
        InstructionShadows(k, c, s);
      }
    } else if c.saved != [] {
      RollbackKeepsLogs(c);
    }
  }

  lemma ExtendShadow(k: Contract, c: Config, s: Config, n: nat, m: nat)
    requires CondProgram(k) && WellStacked(c) && WellStacked(s) && n > 0
    requires Shadows(k, Run(k, Step(k, c), n - 1), Run(Sequential(k), NextShadow(k, c, Step(k, c), s), m))
    ensures Shadows(k, Run(k, c, n), Run(Sequential(k), s, if |Step(k, c).exec| == |c.exec| then m else m + 1))
  {
  }

  lemma {:induction false} RunShadows(k: Contract, c: Config, s: Config, n: nat) returns (m: nat)
    requires CondProgram(k) && Undoable(k, c) && Shadows(k, c, s)
    ensures |Run(k, c, n).exec| == |c.exec| + m && Shadows(k, Run(k, c, n), Run(Sequential(k), s, m))
    decreases n
  {
    if n == 0 {
      m := 0;
    } else {
      StepShadows(k, c, s);
      StepKeepsLogs(k, c);
      var rest := RunShadows(k, Step(k, c), NextShadow(k, c, Step(k, c), s), n - 1);
      ExtendShadow(k, c, s, n, rest);
      m := if |Step(k, c).exec| == |c.exec| then rest else rest + 1;
    }
  }

  lemma ShadowOfDone(k: Contract, c: Config, s: Config)
    requires Shadows(k, c, s) && Done(k, c)
    ensures Done(Sequential(k), s) && c.cpu == s.cpu && c.exec == s.exec
  {
  }

  lemma StartShadows(k: Contract, cpu: Cpu, trace: seq<int>)
    ensures Undoable(k, Start(cpu, trace)) && Shadows(k, Start(cpu, trace), Start(cpu, trace))
  {
  }

  /** Every completed run ends in the state of the completed sequential run, `m` instructions long,
      and records the same execution trace, for every nesting bound and every window. */
  lemma SpeculationIsInvisible(k: Contract, cpu: Cpu, trace: seq<int>, n: nat) returns (m: nat)
    requires CondProgram(k)
    requires Done(k, Run(k, Start(cpu, trace), n))
    ensures var c := Run(k, Start(cpu, trace), n);
            var s := Run(Sequential(k), Start(cpu, trace), m);
            Done(Sequential(k), s) && c.cpu == s.cpu && c.exec == s.exec && |c.exec| == m
  {
    StartShadows(k, cpu, trace);
    m := RunShadows(k, Start(cpu, trace), Start(cpu, trace), n);
    ShadowOfDone(k, Run(k, Start(cpu, trace), n), Run(Sequential(k), Start(cpu, trace), m));
  }
}

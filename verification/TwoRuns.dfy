/** Two runs side by side: the moves of the driver preserve the agreement on trusted locations, at the
    current level and at every checkpoint. */
module TwoRuns {
  import opened Machine
  import opened Speculation
  import opened UndoLogs
  import opened Taint
  import opened TaintSoundness

  ghost function SavedCpu(s: Saved): Cpu {
    Cpu(s.next, s.regs, s.flags, s.mem)
  }

  ghost predicate LevelsAgree(g: iset<Label>, base: int, ds: seq<Deps>, cs: seq<Saved>, es: seq<Saved>) {
    && |ds| == |cs| == |es|
    && forall j :: 0 <= j < |cs| ==>
         && cs[j].next == es[j].next && cs[j].window == es[j].window
         && Agree(g, base, ds[j], SavedCpu(cs[j]), SavedCpu(es[j]))
  }

  /** `c` and its tracker `t` are the first run, `e` is the second one. */
  ghost predicate Related(k: Contract, g: iset<Label>, c: Config, t: Tracker, e: Config) {
    && WellStacked(c) && WellStacked(e)
    && c.cpu.pc == e.cpu.pc && c.window == e.window && c.stopped == e.stopped && c.trace == e.trace
    && Agree(g, k.base, Settle(t).deps, c.cpu, e.cpu)
    && LevelsAgree(g, k.base, t.checkpoints, c.saved, e.saved)
  }

  // ----- The trace of one instruction -----

  function LoadTrace(o: Observation, loads: seq<Access>, values: seq<seq<int>>): seq<int>
    requires |loads| == |values|
  {
    if loads == [] then [] else
      var n := |loads| - 1;
      LoadTrace(o, loads[..n], values[..n])
      + if o.Arch? then [LittleEndian(values[n]), loads[n].addr, loads[n].addr] else [loads[n].addr]
  }

  function StoreTrace(o: Observation, stores: seq<Access>): seq<int> {
    if stores == [] then [] else
      var n := |stores| - 1;
      StoreTrace(o, stores[..n]) + if o.Arch? then [stores[n].addr, stores[n].addr] else [stores[n].addr]
  }

  lemma {:induction false} LoadHooksTrace(k: Contract, c: Config, loads: seq<Access>)
    ensures LoadHooks(k, c, loads).trace == c.trace + LoadTrace(k.observation, loads, Loaded(c.cpu.mem, loads))
  {
    if loads != [] {
      var n := |loads| - 1;
      LoadHooksTrace(k, c, loads[..n]);
      assert Loaded(c.cpu.mem, loads)[..n] == Loaded(c.cpu.mem, loads[..n]);
    }
  }

  lemma {:induction false} StoreHooksTrace(k: Contract, c: Config, i: Insn, v: View, stores: seq<Access>)
    requires i.code != []
    ensures StoreHooks(k, c, i, v, stores).trace == c.trace + StoreTrace(k.observation, stores)
  {
    if stores != [] {
      StoreHooksTrace(k, c, i, v, stores[..|stores| - 1]);
    }
  }

  lemma ExecuteTrace(k: Contract, c: Config)
    requires ValidProgram(k) && c.cpu.pc in k.prog
    ensures var i := k.prog[c.cpu.pc];
            var loads := LoadsOf(i, c.cpu);
            Execute(k, c).trace == c.trace + LoadTrace(k.observation, loads, Loaded(c.cpu.mem, loads))
                                   + StoreTrace(k.observation, StoresOf(i, c.cpu))
  {
    var i := k.prog[c.cpu.pc];
    LoadHooksTrace(k, c, LoadsOf(i, c.cpu));
    StoreHooksTrace(k, LoadHooks(k, c, LoadsOf(i, c.cpu)), i, ViewOf(i, c.cpu), StoresOf(i, c.cpu));
  }

  lemma ObservationsDependOnAddresses(o: Observation, loads: seq<Access>, v: seq<seq<int>>, v': seq<seq<int>>)
    requires |loads| == |v| == |v'| && !o.Arch?
    ensures LoadTrace(o, loads, v) == LoadTrace(o, loads, v')
  {
    if loads != [] {
      var n := |loads| - 1;
      ObservationsDependOnAddresses(o, loads[..n], v[..n], v'[..n]);
    }
  }

  /** Under the arch tracer the loaded values are tainted, so they agree too. */
  lemma LoadTraceAgrees(g: iset<Label>, k: Contract, i: Insn, t: Tracker, x: Cpu, y: Cpu)
    requires AccessesInside(k.base, i, x) && Agree(g, k.base, t.deps, x, y)
    requires LoadsOf(i, x) == LoadsOf(i, y)
    requires Recorded(k, i, LoadsOf(i, x), StoresOf(i, x), t)
    requires Trusted(g, Finalize(t).tainted)
    ensures LoadTrace(k.observation, LoadsOf(i, x), Loaded(x.mem, LoadsOf(i, x)))
            == LoadTrace(k.observation, LoadsOf(i, y), Loaded(y.mem, LoadsOf(i, y)))
  {
    var loads := LoadsOf(i, x);
    if k.observation.Arch? {
      forall n, w | 0 <= n < |loads| && w in Blocks(k.base, loads[n]) ensures Trusted(g, Of(t.deps, WordLabel(w))) {
        PendingIsTainted(t, WordLabel(w));
        FinalizeGrows(t, WordLabel(w));
      }
      AccessesCovered(k.base, i, x);
      SameLoaded(g, k, t, x, y, loads);
    } else {
      ObservationsDependOnAddresses(k.observation, loads, Loaded(x.mem, loads), Loaded(y.mem, loads));
    }
  }

  // ----- An instruction that executes -----

  lemma InstructionAgrees(g: iset<Label>, k: Contract, i: Insn, t: Tracker, x: Cpu, y: Cpu)
    requires Trackable(i) && AccessesInside(k.base, i, x) && ValidEncoding(i.code) && x.pc == y.pc
    requires Agree(g, k.base, Settle(t).deps, x, y)
    requires Trusted(g, Settle(TrackInstruction(k, TaintPc(StartInstruction(t, i)), i, x)).tainted)
    ensures var r := TrackInstruction(k, TaintPc(StartInstruction(t, i)), i, x);
            && Exec(i, x).pc == Exec(i, y).pc
            && Agree(g, k.base, Settle(r).deps, Exec(i, x), Exec(i, y))
            && LoadsOf(i, x) == LoadsOf(i, y) && StoresOf(i, x) == StoresOf(i, y)
            && LoadTrace(k.observation, LoadsOf(i, x), Loaded(x.mem, LoadsOf(i, x)))
               == LoadTrace(k.observation, LoadsOf(i, y), Loaded(y.mem, LoadsOf(i, y)))
  {
    var r := TrackInstruction(k, TaintPc(StartInstruction(t, i)), i, x);
    InstructionRecorded(k, i, t, x);
    SameAccesses(g, k, i, r, x, y);
    LoadTraceAgrees(g, k, i, r, x, y);
    if IsaJump(i.code).NoJump? {
      PcAgrees(g, k, i, r, x, y);
      EffectAgrees(g, k, i, r, x, y);
    } else {
      SourcesOfControlFlow(g, k, i, [], [], r);
      JumpAgrees(g, k, i, r, x, y);
    }
  }

  /** What an executed instruction does to a configuration, without the hooks' details. */
  lemma ExecutedStep(k: Contract, c: Config)
    requires ValidProgram(k) && !k.execution.Bpas? && WellStacked(c) && Running(k, c)
    requires !Mispredicts(k, Observe(k, c)) && !Observe(k, c).stopped
    ensures var i := k.prog[c.cpu.pc];
            var r := Step(k, c);
            && r.cpu == Exec(i, c.cpu) && r.window == Observe(k, c).window && !r.stopped && r.saved == c.saved
            && r.trace == c.trace + [c.cpu.pc]
                          + LoadTrace(k.observation, LoadsOf(i, c.cpu), Loaded(c.cpu.mem, LoadsOf(i, c.cpu)))
                          + StoreTrace(k.observation, StoresOf(i, c.cpu))
  {
    var o := Observe(k, c);
    assert BypassHook(k, o) == o;
    ExecuteFrame(k, o);
    ExecuteTrace(k, o);
  }

  lemma ExecutedTrack(k: Contract, c: Config, t: Tracker)
    requires ValidProgram(k) && !k.execution.Bpas? && WellStacked(c) && Running(k, c) && |t.checkpoints| == |c.saved|
    requires !Mispredicts(k, Observe(k, c)) && !Observe(k, c).stopped
    ensures var i := k.prog[c.cpu.pc];
            && TrackStep(k, c, t) == TrackInstruction(k, TaintPc(StartInstruction(t, i)), i, c.cpu)
            && TrackStep(k, c, t).checkpoints == t.checkpoints
  {
    var i := k.prog[c.cpu.pc];
    var o := Observe(k, c);
    assert BypassHook(k, o) == o && !Bypasses(k, o);
    StartFrame(t, i);
    TrackInstructionFrame(k, TaintPc(StartInstruction(t, i)), i, c.cpu);
  }

  lemma ExecuteRelated(k: Contract, g: iset<Label>, c: Config, t: Tracker, e: Config)
    requires TrackableProgram(k) && !k.execution.Bpas? && Related(k, g, c, t, e)
    requires Running(k, c) && !Mispredicts(k, Observe(k, c)) && !Observe(k, c).stopped && MoveInside(k, c)
    requires Trusted(g, Settle(TrackStep(k, c, t)).tainted)
    ensures Related(k, g, Step(k, c), TrackStep(k, c, t), Step(k, e))
  {
    ExecutedStep(k, c);
    ExecutedStep(k, e);
    ExecutedTrack(k, c, t);
    InstructionAgrees(g, k, k.prog[c.cpu.pc], t, c.cpu, e.cpu);
  }

  // ----- An instruction at which the emulator stops -----

  lemma StopRelated(k: Contract, g: iset<Label>, c: Config, t: Tracker, e: Config)
    requires TrackableProgram(k) && !k.execution.Bpas? && Related(k, g, c, t, e)
    requires Running(k, c) && !Mispredicts(k, Observe(k, c)) && Observe(k, c).stopped
    ensures Related(k, g, Step(k, c), TrackStep(k, c, t), Step(k, e))
  {
    var oc, oe := Observe(k, c), Observe(k, e);
    assert BypassHook(k, oc) == oc && BypassHook(k, oe) == oe;
    var t1 := TaintPc(StartInstruction(t, k.prog[c.cpu.pc]));
    assert t1.deps == Settle(t).deps && t1.active;
    AgreeWeakens(g, k.base, t1, c.cpu, e.cpu);
  }

  // ----- A misprediction -----

  lemma MispredictEffect(k: Contract, c: Config)
    requires ValidProgram(k) && WellStacked(c) && c.cpu.pc in k.prog && Mispredicts(k, c)
    ensures var code := k.prog[c.cpu.pc].code;
            var j := IsaJump(code);
            var target := DecodeTarget(code);
            && !j.NoJump?
            && var fall := c.cpu.pc + |code|;
               var taken := Taken(j, c.cpu.flags, c.cpu.regs["C"]);
               var x := AfterDecrement(j, c.cpu);
               Mispredict(k, c) ==
                 c.(cpu := x.(pc := if taken then fall else fall + target),
                    saved := c.saved + [Saved(if taken then fall + target else fall, x.regs, x.flags, c.window, x.mem)],
                    logs := c.logs + [[]], inSpec := true)
  {
    DecodeIsCorrect(k.prog[c.cpu.pc].code, c.cpu.flags, c.cpu.regs["C"]);
  }

  lemma PushLevel(g: iset<Label>, base: int, ds: seq<Deps>, cs: seq<Saved>, es: seq<Saved>, d: Deps, a: Saved, b: Saved)
    requires LevelsAgree(g, base, ds, cs, es)
    requires a.next == b.next && a.window == b.window && Agree(g, base, d, SavedCpu(a), SavedCpu(b))
    ensures LevelsAgree(g, base, ds + [d], cs + [a], es + [b])
  {
  }

  /** Finalising the jump taints what it tests, so both runs decide alike. */
  lemma JumpsAlike(k: Contract, g: iset<Label>, i: Insn, t: Tracker, x: Cpu, y: Cpu)
    requires JumpIsListed(i) && "RIP" in DestRegs(i.operands)
    requires ValidEncoding(i.code) && !IsaJump(i.code).NoJump?
    requires Agree(g, k.base, t.deps, x, y)
    requires Recorded(k, i, [], [], t) && Trusted(g, Finalize(t).tainted)
    ensures var j := IsaJump(i.code);
            && Taken(j, x.flags, x.regs["C"]) == Taken(j, y.flags, y.regs["C"])
            && Agree(g, k.base, Finalize(t).deps, AfterDecrement(j, x), AfterDecrement(j, y))
  {
    SourcesOfControlFlow(g, k, i, [], [], t);
    JumpDecisionAgrees(g, k, i, t, x, y);
    AgreeWeakens(g, k.base, t, x, y);
    DecrementAgrees(g, k.base, Finalize(t).deps, IsaJump(i.code), x, y);
  }

  lemma MispredictLevels(k: Contract, g: iset<Label>, c: Config, ds: seq<Deps>, d: Deps, e: Config)
    requires ValidProgram(k) && WellStacked(c) && WellStacked(e)
    requires c.cpu.pc == e.cpu.pc && c.cpu.pc in k.prog && c.window == e.window
    requires LevelsAgree(g, k.base, ds, c.saved, e.saved)
    requires Mispredicts(k, c) && Mispredicts(k, e)
    requires var j := IsaJump(k.prog[c.cpu.pc].code);
             && !j.NoJump?
             && Taken(j, c.cpu.flags, c.cpu.regs["C"]) == Taken(j, e.cpu.flags, e.cpu.regs["C"])
             && Agree(g, k.base, d, AfterDecrement(j, c.cpu), AfterDecrement(j, e.cpu))
    ensures var c', e' := Mispredict(k, c), Mispredict(k, e);
            && c'.cpu.pc == e'.cpu.pc
            && c' == c.(cpu := c'.cpu, saved := c'.saved, logs := c'.logs, inSpec := true)
            && e' == e.(cpu := e'.cpu, saved := e'.saved, logs := e'.logs, inSpec := true)
            && Agree(g, k.base, d, c'.cpu, e'.cpu)
            && LevelsAgree(g, k.base, ds + [d], c'.saved, e'.saved)
  {
    var code := k.prog[c.cpu.pc].code;
    var j := IsaJump(code);
    MispredictEffect(k, c);
    MispredictEffect(k, e);
    var c', e' := Mispredict(k, c), Mispredict(k, e);
    var x, y := AfterDecrement(j, c.cpu), AfterDecrement(j, e.cpu);
    var a, b := c'.saved[|c.saved|], e'.saved[|c.saved|];
    PcIsNoLocation(g, k.base, d, x, y, a.next, b.next);
    PcIsNoLocation(g, k.base, d, x, y, c'.cpu.pc, e'.cpu.pc);
    PushLevel(g, k.base, ds, c.saved, e.saved, d, a, b);
  }

  lemma MispredictedTrack(k: Contract, c: Config, t: Tracker)
    requires ValidProgram(k) && WellStacked(c) && Running(k, c) && |t.checkpoints| == |c.saved|
    requires Mispredicts(k, Observe(k, c))
    ensures var t1 := Finalize(TaintPc(StartInstruction(t, k.prog[c.cpu.pc])));
            var r := TrackStep(k, c, t);
            && Settle(r) == r && r.deps == t1.deps && r.tainted == t1.tainted
            && r.checkpoints == t.checkpoints + [t1.deps]
  {
    StartFrame(t, k.prog[c.cpu.pc]);
  }

  lemma MispredictedStep(k: Contract, c: Config)
    requires ValidProgram(k) && WellStacked(c) && Running(k, c) && Mispredicts(k, Observe(k, c))
    ensures var o := Observe(k, c);
            Step(k, c) == Mispredict(k, o) && !IsaJump(k.prog[c.cpu.pc].code).NoJump?
            && o.cpu == c.cpu && o.saved == c.saved && WellStacked(o)
  {
    DecodeIsCorrect(k.prog[c.cpu.pc].code, c.cpu.flags, c.cpu.regs["C"]);
  }

  lemma ObservedAlike(k: Contract, c: Config, e: Config)
    requires WellStacked(c) && WellStacked(e) && |c.saved| == |e.saved|
    requires c.cpu.pc == e.cpu.pc && c.cpu.pc in k.prog && c.window == e.window && c.trace == e.trace
    ensures var o, p := Observe(k, c), Observe(k, e);
            o.window == p.window && o.stopped == p.stopped && o.trace == p.trace
  {
  }

  lemma MispredictRelated(k: Contract, g: iset<Label>, c: Config, t: Tracker, e: Config)
    requires TrackableProgram(k) && !k.execution.Bpas? && Related(k, g, c, t, e)
    requires Running(k, c) && Mispredicts(k, Observe(k, c))
    requires Trusted(g, Settle(TrackStep(k, c, t)).tainted)
    ensures Related(k, g, Step(k, c), TrackStep(k, c, t), Step(k, e))
  {
    var i := k.prog[c.cpu.pc];
    var t1 := TaintPc(StartInstruction(t, i));
    MispredictedStep(k, c);
    MispredictedStep(k, e);
    ObservedAlike(k, c, e);
    MispredictedTrack(k, c, t);
    StartRecorded(k, i, t);
    JumpsAlike(k, g, i, t1, c.cpu, e.cpu);
    MispredictLevels(k, g, Observe(k, c), t.checkpoints, Finalize(t1).deps, Observe(k, e));
  }

  // ----- A rollback -----

  lemma PopLevel(g: iset<Label>, base: int, ds: seq<Deps>, cs: seq<Saved>, es: seq<Saved>, n: nat)
    requires LevelsAgree(g, base, ds, cs, es) && n < |cs|
    ensures LevelsAgree(g, base, ds[..n], cs[..n], es[..n])
  {
  }

  lemma RollbackState(c: Config)
    requires LogsRestore(c) && c.saved != []
    ensures IsRestored(c, Rollback(c))
  {
    RollbackKeepsLogs(c);
  }

  /** What a rollback restores. */
  ghost predicate IsRestored(c: Config, r: Config)
    requires c.saved != []
  {
    var n := |c.saved| - 1;
    && WellStacked(r) && r.cpu == SavedCpu(c.saved[n]) && r.window == c.saved[n].window
    && r.saved == c.saved[..n] && !r.stopped && r.trace == c.trace
  }

  lemma RestoredRelated(k: Contract, g: iset<Label>, c: Config, t: Tracker, e: Config, c': Config, e': Config)
    requires Related(k, g, c, t, e) && c.saved != [] && IsRestored(c, c') && IsRestored(e, e')
    ensures Related(k, g, c', RestoreCheckpoint(t), e')
  {
    var n := |c.saved| - 1;
    RestoredTrack(t, n);
    PopLevel(g, k.base, t.checkpoints, c.saved, e.saved, n);
  }

  lemma RollbackMoves(k: Contract, c: Config, t: Tracker)
    requires ValidProgram(k) && WellStacked(c) && |t.checkpoints| == |c.saved| && !Running(k, c) && c.saved != []
    ensures Step(k, c) == Rollback(c) && TrackStep(k, c, t) == RestoreCheckpoint(t)
  {
  }

  lemma RollbackRelated(k: Contract, g: iset<Label>, c: Config, t: Tracker, e: Config)
    requires ValidProgram(k) && Related(k, g, c, t, e) && LogsRestore(c) && LogsRestore(e)
    requires !Running(k, c) && c.saved != []
    ensures Related(k, g, Step(k, c), TrackStep(k, c, t), Step(k, e))
  {
    RollbackState(c);
    RollbackState(e);
    RestoredRelated(k, g, c, t, e, Rollback(c), Rollback(e));
    RollbackMoves(k, c, t);
    RollbackMoves(k, e, t);
  }

  lemma RestoredTrack(t: Tracker, n: nat)
    requires |t.checkpoints| == n + 1
    ensures var r := RestoreCheckpoint(t); r.checkpoints == t.checkpoints[..n] && Settle(r).deps == t.checkpoints[n]
  {
  }

  /** Every move of the driver keeps the two runs related, as long as what it taints is trusted. */
  lemma StepRelated(k: Contract, g: iset<Label>, c: Config, t: Tracker, e: Config)
    requires TrackableProgram(k) && !k.execution.Bpas? && Related(k, g, c, t, e)
    requires LogsRestore(c) && LogsRestore(e) && MoveInside(k, c)
    requires Trusted(g, Settle(TrackStep(k, c, t)).tainted)
    ensures Related(k, g, Step(k, c), TrackStep(k, c, t), Step(k, e))
  {
    if !Running(k, c) {
      if c.saved != [] {
        RollbackRelated(k, g, c, t, e);
      }
    } else if Mispredicts(k, Observe(k, c)) {
      MispredictRelated(k, g, c, t, e);
    } else if Observe(k, c).stopped {
      StopRelated(k, g, c, t, e);
    } else {
      ExecuteRelated(k, g, c, t, e);
    }
  }

  // ----- Taints only grow -----

  lemma SettleGrows(t: Tracker)
    ensures t.tainted <= Settle(t).tainted
  {
  }

  lemma TaintsGrow(k: Contract, c: Config, t: Tracker)
    requires ValidProgram(k) && WellStacked(c) && |t.checkpoints| == |c.saved|
    ensures Settle(t).tainted <= Settle(TrackStep(k, c, t)).tainted
  {
    SettleGrows(TrackStep(k, c, t));
    if Running(k, c) {
      var i := k.prog[c.cpu.pc];
      var t1 := TaintPc(StartInstruction(t, i));
      StartFrame(t, i);
      SettleGrows(t1);
      if !Mispredicts(k, Observe(k, c)) {
        var t2 := if Bypasses(k, Observe(k, c)) then TakeCheckpoint(t1) else t1;
        TrackInstructionFrame(k, t2, i, BypassHook(k, Observe(k, c)).cpu);
      }
    }
  }

  lemma {:induction false} RunTaintsGrow(k: Contract, c: Config, t: Tracker, n: nat)
    requires ValidProgram(k) && WellStacked(c) && |t.checkpoints| == |c.saved|
    ensures Settle(t).tainted <= Settle(TrackRun(k, c, t, n)).tainted
    decreases n
  {
    if n > 0 {
      TaintsGrow(k, c, t);
      RunUnfolds(k, c, t, n);
      RunTaintsGrow(k, Step(k, c), TrackStep(k, c, t), n - 1);
    }
  }

  /** Two runs that start related stay related, if all that the first one ever taints is trusted. */
  lemma {:induction false} RunsRelated(k: Contract, g: iset<Label>, c: Config, t: Tracker, e: Config, n: nat)
    requires TrackableProgram(k) && !k.execution.Bpas? && Related(k, g, c, t, e)
    requires Undoable(k, c) && Undoable(k, e) && RunInside(k, c, n)
    requires Trusted(g, Settle(TrackRun(k, c, t, n)).tainted)
    ensures Related(k, g, Run(k, c, n), TrackRun(k, c, t, n), Run(k, e, n))
    decreases n
  {
    if n > 0 {
      var c', t', e' := Step(k, c), TrackStep(k, c, t), Step(k, e);
      RunUnfolds(k, c, t, n);
      RunUnfolds(k, e, t, n);
      SoFarTrusted(k, g, c', t', n - 1);
      RunInsideNext(k, c, n);
      StepRelated(k, g, c, t, e);
      StepKeepsLogs(k, c);
      StepKeepsLogs(k, e);
      RunsRelated(k, g, c', t', e', n - 1);
    }
  }

  /** The first move of a run, apart from the rest. */
  lemma RunUnfolds(k: Contract, c: Config, t: Tracker, n: nat)
    requires ValidProgram(k) && WellStacked(c) && |t.checkpoints| == |c.saved| && n > 0
    ensures Run(k, c, n) == Run(k, Step(k, c), n - 1)
    ensures |TrackStep(k, c, t).checkpoints| == |Step(k, c).saved|
    ensures TrackRun(k, c, t, n) == TrackRun(k, Step(k, c), TrackStep(k, c, t), n - 1)
  {
    TrackerDepth(k, c, t);
  }

  /** What a run has tainted so far is trusted if all that it ever taints is. */
  lemma SoFarTrusted(k: Contract, g: iset<Label>, c: Config, t: Tracker, n: nat)
    requires ValidProgram(k) && WellStacked(c) && |t.checkpoints| == |c.saved|
    requires Trusted(g, Settle(TrackRun(k, c, t, n)).tainted)
    ensures Trusted(g, Settle(t).tainted)
  {
    RunTaintsGrow(k, c, t, n);
    FewerTrusted(g, Settle(t).tainted, Settle(TrackRun(k, c, t, n)).tainted);
  }

  lemma FewerTrusted(g: iset<Label>, s: set<Label>, all: set<Label>)
    requires s <= all && Trusted(g, all)
    ensures Trusted(g, s)
  {
  }
}

/** Taint precision: nothing is tainted but what an observation depends on. A location is observed when a move shows
    its value in the trace, and the labels it then depends on are all that the move taints. */
module TaintPrecision {
  import opened Flags
  import opened Machine
  import opened Speculation
  import opened Taint
  import opened TaintSoundness
  import opened TwoRuns
  import opened Inputs
  import opened SandboxedRuns

  // ----- What an instruction reads, writes and shows, by its operands and its accesses -----

  predicate ReadsReg(i: Insn, r: string) {
    RegOp(r, true, true) in i.operands || RegOp(r, true, false) in i.operands
  }

  predicate WritesReg(i: Insn, r: string) {
    RegOp(r, true, true) in i.operands || RegOp(r, false, true) in i.operands
  }

  /** The register occurs in the address of a memory operand. */
  predicate AddressesBy(i: Insn, r: string) {
    exists n :: 0 <= n < |i.operands| && i.operands[n].MemOp? && r in i.operands[n].addressRegs
  }

  predicate Touched(base: int, accesses: seq<Access>, w: int) {
    exists n :: 0 <= n < |accesses| && w in Blocks(base, accesses[n])
  }

  /** The move runs an instruction to its end: no misprediction and no stop request intervenes. */
  predicate Executes(k: Contract, c: Config)
    requires ValidProgram(k)
  {
    Running(k, c) && !Mispredicts(k, Observe(k, c)) && !Observe(k, c).stopped
  }

  predicate ReadsLocation(k: Contract, c: Config, l: Label)
    requires ValidProgram(k) && Running(k, c)
  {
    var i := k.prog[c.cpu.pc];
    match l
    case RegLabel(r) => ReadsReg(i, r)
    case FlagLabel(f) => ModeOf(FlagModes(i.operands), f) in {Read, ReadWrite, ReadCondWrite, Undefined}
    case WordLabel(w) => Executes(k, c) && Touched(k.base, LoadsOf(i, c.cpu), w)
  }

  predicate WritesLocation(k: Contract, c: Config, l: Label)
    requires ValidProgram(k) && Running(k, c)
  {
    var i := k.prog[c.cpu.pc];
    match l
    case RegLabel(r) => WritesReg(i, r)
    case FlagLabel(f) => ModeOf(FlagModes(i.operands), f) in {Write, ReadWrite, ReadCondWrite}
    case WordLabel(w) => Executes(k, c) && Touched(k.base, StoresOf(i, c.cpu), w)
  }

  /** The locations that show in the trace: RIP of control flow, the address registers of an access and, under arch,
      the loaded blocks. */
  predicate Observes(k: Contract, c: Config, l: Label)
    requires ValidProgram(k)
  {
    && Running(k, c)
    && var i := k.prog[c.cpu.pc];
       match l
       case RegLabel(r) =>
         || (r == "RIP" && i.controlFlow)
         || (Executes(k, c) && LoadsOf(i, c.cpu) + StoresOf(i, c.cpu) != [] && AddressesBy(i, r))
       case FlagLabel(_) => false
       case WordLabel(w) => Executes(k, c) && k.observation.Arch? && Touched(k.base, LoadsOf(i, c.cpu), w)
  }

  // ----- The operand lists -----

  lemma {:induction false} SrcRegsListed(ops: seq<Operand>, r: string)
    ensures r in SrcRegs(ops) <==> RegOp(r, true, true) in ops || RegOp(r, true, false) in ops
  {
    if ops != [] {
      var n := |ops| - 1;
      SrcRegsListed(ops[..n], r);
      assert ops == ops[..n] + [ops[n]];
    }
  }

  lemma {:induction false} DestRegsListed(ops: seq<Operand>, r: string)
    ensures r in DestRegs(ops) <==> RegOp(r, true, true) in ops || RegOp(r, false, true) in ops
  {
    if ops != [] {
      var n := |ops| - 1;
      DestRegsListed(ops[..n], r);
      assert ops == ops[..n] + [ops[n]];
    }
  }

  lemma {:induction false} AddressRegsListed(ops: seq<Operand>, r: string)
    ensures r in AddressRegs(ops) <==> exists n :: 0 <= n < |ops| && ops[n].MemOp? && r in ops[n].addressRegs
  {
    if ops != [] {
      var first := ops[..|ops| - 1];
      AddressRegsListed(first, r);
      forall n | 0 <= n < |ops| - 1 ensures first[n] == ops[n] {
      }
    }
  }

  /** The FLAGS operand that counts is the last one. */
  lemma {:induction false} LastModes(ops: seq<Operand>, n: nat)
    requires n < |ops| && ops[n].FlagsOp? && forall p :: n < p < |ops| ==> !ops[p].FlagsOp?
    ensures FlagModes(ops) == ops[n].modes
  {
    if n < |ops| - 1 {
      LastModes(ops[..|ops| - 1], n);
    }
  }

  // ----- What the tracker notes of one move -----

  lemma {:induction false} LoadsNoted(k: Contract, t: Tracker, loads: seq<Access>, l: Label)
    requires t.srcMems == []
    ensures var r := TrackLoads(k, t, loads);
            && (l.WordLabel? ==> (l.offset in r.srcMems <==> Touched(k.base, loads, l.offset)))
            && (l in r.pending <==>
                  || l in t.pending
                  || (loads != [] && l.RegLabel? && l.reg in t.addressRegs)
                  || (k.observation.Arch? && l.WordLabel? && Touched(k.base, loads, l.offset)))
  {
    if loads != [] {
      var n := |loads| - 1;
      var s := TrackLoads(k, t, loads[..n]);
      LoadsNoted(k, t, loads[..n], l);
      TrackLoadsFrame(k, t, loads[..n]);
      if l.WordLabel? {
        TouchedNext(k.base, loads, l.offset);
      }
      LoadNoted(k, s, loads[n], l);
    }
  }

  lemma TouchedNext(base: int, accesses: seq<Access>, w: int)
    requires accesses != []
    ensures var n := |accesses| - 1;
            Touched(base, accesses, w) <==> Touched(base, accesses[..n], w) || w in Blocks(base, accesses[n])
  {
    var first := accesses[..|accesses| - 1];
    forall n | 0 <= n < |first| ensures first[n] == accesses[n] {
    }
  }

  lemma LoadNoted(k: Contract, s: Tracker, a: Access, l: Label)
    ensures var p := TrackAccess(s, k.base, a, false);
            var r := if k.observation.Arch? then TaintAddress(TaintAddress(TaintLoad(p))) else TaintAddress(p);
            && r.srcMems == s.srcMems + Blocks(k.base, a)
            && (l in r.pending <==>
                  || l in s.pending
                  || (l.RegLabel? && l.reg in s.addressRegs)
                  || (k.observation.Arch? && l.WordLabel? && l.offset in s.srcMems + Blocks(k.base, a)))
  {
    RegsLabelled(s.addressRegs, l);
    WordsLabelled(s.srcMems + Blocks(k.base, a), l);
  }

  lemma RegsLabelled(rs: seq<string>, l: Label)
    ensures l in RegLabels(rs) <==> l.RegLabel? && l.reg in rs
  {
    InLabels(rs, []);
  }

  lemma WordsLabelled(ws: seq<int>, l: Label)
    ensures l in WordLabels(ws) <==> l.WordLabel? && l.offset in ws
  {
    InLabels([], ws);
  }

  lemma FlagsLabelled(fs: seq<Flag>, l: Label)
    ensures l in FlagLabels(fs) <==> l.FlagLabel? && l.flag in fs
  {
    if l.FlagLabel? && l.flag in fs {
      var n :| 0 <= n < |fs| && fs[n] == l.flag;
      assert FlagLabels(fs)[n] == l;
    }
  }

  lemma {:induction false} StoresNoted(k: Contract, t: Tracker, stores: seq<Access>, l: Label)
    requires t.destMems == []
    ensures var r := TrackStores(k, t, stores);
            && (l.WordLabel? ==> (l.offset in r.destMems <==> Touched(k.base, stores, l.offset)))
            && (l in r.pending <==> l in t.pending || (stores != [] && l.RegLabel? && l.reg in t.addressRegs))
  {
    if stores != [] {
      var n := |stores| - 1;
      StoresNoted(k, t, stores[..n], l);
      TrackStoresFrame(k, t, stores[..n]);
      if l.WordLabel? {
        TouchedNext(k.base, stores, l.offset);
      }
      RegsLabelled(t.addressRegs, l);
    }
  }

  /** The tracker with all that a move notes, before it is finalised. */
  function Noted(k: Contract, c: Config, t: Tracker): Tracker
    requires ValidProgram(k) && Running(k, c)
  {
    var i := k.prog[c.cpu.pc];
    var s := TaintPc(StartInstruction(t, i));
    if Executes(k, c) then TrackInstruction(k, s, i, c.cpu) else s
  }

  lemma NotedIsFinalised(k: Contract, c: Config, t: Tracker)
    requires ValidProgram(k) && !k.execution.Bpas? && WellStacked(c) && |t.checkpoints| == |c.saved| && Running(k, c)
    ensures var r, s := Settle(TrackStep(k, c, t)), Noted(k, c, t);
            && r.deps == Finalize(s).deps && r.tainted == Finalize(s).tainted
            && s.deps == Settle(t).deps && s.tainted == Settle(t).tainted
  {
    var i := k.prog[c.cpu.pc];
    StartFrame(t, i);
    if Executes(k, c) {
      ExecutedTrack(k, c, t);
      TrackInstructionFrame(k, TaintPc(StartInstruction(t, i)), i, c.cpu);
    } else if Mispredicts(k, Observe(k, c)) {
      MispredictedTrack(k, c, t);
    } else {
      assert BypassHook(k, Observe(k, c)) == Observe(k, c);
    }
  }

  lemma InstructionNoted(k: Contract, s: Tracker, i: Insn, cpu: Cpu, l: Label)
    requires s.srcMems == [] && s.destMems == []
    ensures var r := TrackInstruction(k, s, i, cpu);
            && r == s.(srcMems := r.srcMems, destMems := r.destMems, pending := r.pending)
            && (l.WordLabel? ==> (l.offset in r.srcMems <==> Touched(k.base, LoadsOf(i, cpu), l.offset)))
            && (l.WordLabel? ==> (l.offset in r.destMems <==> Touched(k.base, StoresOf(i, cpu), l.offset)))
            && (l in r.pending <==>
                  || l in s.pending
                  || (LoadsOf(i, cpu) + StoresOf(i, cpu) != [] && l.RegLabel? && l.reg in s.addressRegs)
                  || (k.observation.Arch? && l.WordLabel? && Touched(k.base, LoadsOf(i, cpu), l.offset)))
  {
    LoadsNoted(k, s, LoadsOf(i, cpu), l);
    TrackLoadsFrame(k, s, LoadsOf(i, cpu));
    var p := TrackLoads(k, s, LoadsOf(i, cpu));
    StoresNoted(k, p, StoresOf(i, cpu), l);
    TrackStoresFrame(k, p, StoresOf(i, cpu));
  }

  /** The tracker's operand lists, in terms of the operands. */
  lemma ListedOperands(i: Insn, l: Label)
    ensures l in RegLabels(SrcRegs(i.operands)) <==> l.RegLabel? && ReadsReg(i, l.reg)
    ensures l in RegLabels(DestRegs(i.operands)) <==> l.RegLabel? && WritesReg(i, l.reg)
    ensures l.RegLabel? ==> (l.reg in AddressRegs(i.operands) <==> AddressesBy(i, l.reg))
  {
    RegsLabelled(SrcRegs(i.operands), l);
    RegsLabelled(DestRegs(i.operands), l);
    if l.RegLabel? {
      SrcRegsListed(i.operands, l.reg);
      DestRegsListed(i.operands, l.reg);
      AddressRegsListed(i.operands, l.reg);
    }
  }

  lemma ListedFlags(m: Modes, l: Label)
    ensures l in FlagLabels(ReadFlags(m) + UndefFlags(m))
            <==> l.FlagLabel? && ModeOf(m, l.flag) in {Read, ReadWrite, ReadCondWrite, Undefined}
    ensures l in FlagLabels(WriteFlags(m)) <==> l.FlagLabel? && ModeOf(m, l.flag) in {Write, ReadWrite, ReadCondWrite}
  {
    FlagsLabelled(ReadFlags(m) + UndefFlags(m), l);
    FlagsLabelled(WriteFlags(m), l);
  }

  lemma NotedLists(k: Contract, c: Config, t: Tracker, l: Label)
    requires ValidProgram(k) && Running(k, c)
    ensures var i := k.prog[c.cpu.pc];
            var m := FlagModes(i.operands);
            var r := Noted(k, c, t);
            && r.srcRegs == SrcRegs(i.operands) && r.destRegs == DestRegs(i.operands)
            && r.srcFlags == ReadFlags(m) + UndefFlags(m) && r.destFlags == WriteFlags(m)
            && (l.WordLabel? ==>
                  && (l.offset in r.srcMems <==> Executes(k, c) && Touched(k.base, LoadsOf(i, c.cpu), l.offset))
                  && (l.offset in r.destMems <==> Executes(k, c) && Touched(k.base, StoresOf(i, c.cpu), l.offset)))
            && (l in r.pending <==> Observes(k, c, l))
  {
    var i := k.prog[c.cpu.pc];
    var s := TaintPc(StartInstruction(t, i));
    assert s.pending == if i.controlFlow then [RegLabel("RIP")] else [];
    ListedOperands(i, l);
    if Executes(k, c) {
      InstructionNoted(k, s, i, c.cpu, l);
    }
  }

  /** The tracker notes exactly what a move reads, writes and shows. */
  lemma MoveIsNoted(k: Contract, c: Config, t: Tracker, l: Label)
    requires ValidProgram(k) && Running(k, c)
    ensures l in Noted(k, c, t).pending <==> Observes(k, c, l)
    ensures l in Sources(Noted(k, c, t)) <==> ReadsLocation(k, c, l)
    ensures l in Targets(Noted(k, c, t)) <==> WritesLocation(k, c, l)
  {
    var i := k.prog[c.cpu.pc];
    var r := Noted(k, c, t);
    NotedLists(k, c, t, l);
    ListedOperands(i, l);
    ListedFlags(FlagModes(i.operands), l);
    WordsLabelled(r.srcMems, l);
    WordsLabelled(r.destMems, l);
  }

  // ----- One move -----

  lemma {:induction false} InUnion(d: Deps, ls: seq<Label>, x: Label)
    ensures x in UnionOf(d, ls) <==> exists l :: l in ls && x in Of(d, l)
  {
    if ls != [] {
      var n := |ls| - 1;
      InUnion(d, ls[..n], x);
      assert ls == ls[..n] + [ls[n]];
    }
  }

  /** A location that a move writes depends on what it did before and on what each location that the move reads did;
      the dependencies of all other locations stay. */
  lemma MoveDepends(k: Contract, c: Config, t: Tracker, l: Label, x: Label)
    requires ValidProgram(k) && !k.execution.Bpas? && WellStacked(c) && |t.checkpoints| == |c.saved| && Running(k, c)
    ensures x in Of(Settle(TrackStep(k, c, t)).deps, l) <==>
              || x in Of(Settle(t).deps, l)
              || (WritesLocation(k, c, l) && exists s :: ReadsLocation(k, c, s) && x in Of(Settle(t).deps, s))
  {
    var r := Noted(k, c, t);
    NotedIsFinalised(k, c, t);
    MoveIsNoted(k, c, t, l);
    assert Of(Finalize(r).deps, l) == Of(r.deps, l) + if l in Targets(r) then UnionOf(r.deps, Sources(r)) else {};
    InUnion(r.deps, Sources(r), x);
    forall s ensures s in Sources(r) <==> ReadsLocation(k, c, s) {
      MoveIsNoted(k, c, t, s);
    }
  }

  /** A move taints exactly the labels on which the locations that it shows depend. */
  lemma MoveTaints(k: Contract, c: Config, t: Tracker, x: Label)
    requires ValidProgram(k) && !k.execution.Bpas? && WellStacked(c) && |t.checkpoints| == |c.saved|
    ensures x in Settle(TrackStep(k, c, t)).tainted <==>
              x in Settle(t).tainted || exists l :: Observes(k, c, l) && x in Of(Settle(TrackStep(k, c, t)).deps, l)
  {
    if Running(k, c) {
      var r := Noted(k, c, t);
      NotedIsFinalised(k, c, t);
      InUnion(Finalize(r).deps, r.pending, x);
      forall l ensures l in r.pending <==> Observes(k, c, l) {
        MoveIsNoted(k, c, t, l);
      }
    }
  }

  /** A misprediction saves the dependencies that it leaves, and a rollback brings back those saved last. */
  lemma LevelsDepend(k: Contract, c: Config, t: Tracker)
    requires ValidProgram(k) && !k.execution.Bpas? && WellStacked(c) && |t.checkpoints| == |c.saved|
    ensures var r := TrackStep(k, c, t);
            var n := |c.saved| - 1;
            && (Running(k, c) ==>
                  r.checkpoints ==
                    if Mispredicts(k, Observe(k, c)) then t.checkpoints + [Settle(r).deps] else t.checkpoints)
            && (!Running(k, c) && c.saved != [] ==>
                  Settle(r).deps == t.checkpoints[n] && r.checkpoints == t.checkpoints[..n])
            && (!Running(k, c) && c.saved == [] ==> r == t)
  {
    if !Running(k, c) {
      if c.saved != [] {
        RestoredTrack(t, |c.saved| - 1);
      }
    } else if Mispredicts(k, Observe(k, c)) {
      MispredictedTrack(k, c, t);
    } else if Observe(k, c).stopped {
      StartFrame(t, k.prog[c.cpu.pc]);
      assert BypassHook(k, Observe(k, c)) == Observe(k, c);
    } else {
      ExecutedTrack(k, c, t);
    }
  }

  /** Under the bypass contract the checkpoint finalises the instruction that bypasses a store before its accesses are
      tracked: whatever it loads and stores, it is tracked as one without accesses, until it is executed again behind
      the rollback. */
  lemma BypassIsNotTracked(k: Contract, c: Config, t: Tracker)
    requires ValidProgram(k) && WellStacked(c) && |t.checkpoints| == |c.saved| && Running(k, c)
    requires k.execution.Bpas? && |Step(k, c).saved| > |c.saved|
    ensures var s := Finalize(TaintPc(StartInstruction(t, k.prog[c.cpu.pc])));
            var r := Settle(TrackStep(k, c, t));
            r.deps == s.deps && r.tainted == s.tainted && r.checkpoints == t.checkpoints + [s.deps]
  {
    var i := k.prog[c.cpu.pc];
    var o := Observe(k, c);
    var t1 := TaintPc(StartInstruction(t, i));
    ModelDepth(k, c);
    StartFrame(t, i);
    TrackInstructionFrame(k, TakeCheckpoint(t1), i, BypassHook(k, o).cpu);
  }

  // ----- Whole runs -----

  /** Move m of a run shows a location that then depends on x. */
  ghost predicate ShownAt(k: Contract, c: Config, t: Tracker, m: nat, l: Label, x: Label)
    requires ValidProgram(k) && WellStacked(c) && |t.checkpoints| == |c.saved|
  {
    Observes(k, Run(k, c, m), l) && x in Of(Settle(TrackRun(k, c, t, m + 1)).deps, l)
  }

  lemma ShownFirst(k: Contract, c: Config, t: Tracker, l: Label, x: Label, m: nat)
    requires ValidProgram(k) && WellStacked(c) && |t.checkpoints| == |c.saved| && m == 0
    ensures ShownAt(k, c, t, m, l, x) <==> Observes(k, c, l) && x in Of(Settle(TrackStep(k, c, t)).deps, l)
  {
    RunUnfolds(k, c, t, m + 1);
  }

  lemma ShownLater(k: Contract, c: Config, t: Tracker, m: nat, l: Label, x: Label)
    requires ValidProgram(k) && WellStacked(c) && |t.checkpoints| == |c.saved| && m > 0
    requires |TrackStep(k, c, t).checkpoints| == |Step(k, c).saved|
    ensures ShownAt(k, c, t, m, l, x) <==> ShownAt(k, Step(k, c), TrackStep(k, c, t), m - 1, l, x)
  {
    RunUnfolds(k, c, t, m);
    RunUnfolds(k, c, t, m + 1);
  }

  /** Some move of a run shows a location that then depends on x. */
  ghost predicate Shown(k: Contract, c: Config, t: Tracker, n: nat, x: Label)
    requires ValidProgram(k) && WellStacked(c) && |t.checkpoints| == |c.saved|
  {
    exists m, l :: 0 <= m < n && ShownAt(k, c, t, m, l, x)
  }

  /** The move shows a location that then depends on x. */
  ghost predicate MoveShows(k: Contract, c: Config, t: Tracker, x: Label)
    requires ValidProgram(k) && WellStacked(c) && |t.checkpoints| == |c.saved|
  {
    exists l :: Observes(k, c, l) && x in Of(Settle(TrackStep(k, c, t)).deps, l)
  }

  lemma ShownNow(k: Contract, c: Config, t: Tracker, n: nat, x: Label)
    requires ValidProgram(k) && WellStacked(c) && |t.checkpoints| == |c.saved| && n > 0
    requires MoveShows(k, c, t, x)
    ensures Shown(k, c, t, n, x)
  {
    var l :| Observes(k, c, l) && x in Of(Settle(TrackStep(k, c, t)).deps, l);
    ShownFirst(k, c, t, l, x, 0);
  }

  lemma ShownAfter(k: Contract, c: Config, t: Tracker, n: nat, x: Label)
    requires ValidProgram(k) && WellStacked(c) && |t.checkpoints| == |c.saved| && n > 0
    requires |TrackStep(k, c, t).checkpoints| == |Step(k, c).saved|
    requires Shown(k, Step(k, c), TrackStep(k, c, t), n - 1, x)
    ensures Shown(k, c, t, n, x)
  {
    var c', t' := Step(k, c), TrackStep(k, c, t);
    var m, l :| 0 <= m < n - 1 && ShownAt(k, c', t', m, l, x);
    ShownLater(k, c, t, m + 1, l, x);
  }

  lemma ShownSometime(k: Contract, c: Config, t: Tracker, n: nat, x: Label)
    requires ValidProgram(k) && WellStacked(c) && |t.checkpoints| == |c.saved| && n > 0
    requires |TrackStep(k, c, t).checkpoints| == |Step(k, c).saved|
    requires Shown(k, c, t, n, x)
    ensures MoveShows(k, c, t, x) || Shown(k, Step(k, c), TrackStep(k, c, t), n - 1, x)
  {
    var m, l :| 0 <= m < n && ShownAt(k, c, t, m, l, x);
    if m == 0 {
      ShownFirst(k, c, t, l, x, m);
    } else {
      ShownLater(k, c, t, m, l, x);
    }
  }

  lemma ShownUnfolds(k: Contract, c: Config, t: Tracker, n: nat, x: Label)
    requires ValidProgram(k) && WellStacked(c) && |t.checkpoints| == |c.saved| && n > 0
    requires |TrackStep(k, c, t).checkpoints| == |Step(k, c).saved|
    ensures Shown(k, c, t, n, x) <==> MoveShows(k, c, t, x) || Shown(k, Step(k, c), TrackStep(k, c, t), n - 1, x)
  {
    if Shown(k, c, t, n, x) {
      ShownSometime(k, c, t, n, x);
    } else if MoveShows(k, c, t, x) {
      ShownNow(k, c, t, n, x);
    } else if Shown(k, Step(k, c), TrackStep(k, c, t), n - 1, x) {
      ShownAfter(k, c, t, n, x);
    }
  }

  lemma MoveTaintsShown(k: Contract, c: Config, t: Tracker, x: Label)
    requires ValidProgram(k) && !k.execution.Bpas? && WellStacked(c) && |t.checkpoints| == |c.saved|
    ensures x in Settle(TrackStep(k, c, t)).tainted <==> x in Settle(t).tainted || MoveShows(k, c, t, x)
  {
    MoveTaints(k, c, t, x);
  }

  /** After any run a label is tainted exactly if it was so before or some move showed what then depended on it. */
  lemma {:induction false} RunTaints(k: Contract, c: Config, t: Tracker, n: nat, x: Label)
    requires ValidProgram(k) && !k.execution.Bpas? && WellStacked(c) && |t.checkpoints| == |c.saved|
    ensures x in Settle(TrackRun(k, c, t, n)).tainted <==> x in Settle(t).tainted || Shown(k, c, t, n, x)
    decreases n
  {
    if n > 0 {
      RunUnfolds(k, c, t, n);
      var c', t' := Step(k, c), TrackStep(k, c, t);
      RunTaints(k, c', t', n - 1, x);
      MoveTaintsShown(k, c, t, x);
      ShownUnfolds(k, c, t, n, x);
    }
  }

  lemma TaintOfStands(k: Contract, y: Layout, rest: Cpu, a: seq<int>, n: nat, j: nat, tainted: set<Label>)
    requires ValidProgram(k) && ValidInput(y, a) && j < y.DataSize()
    requires Settle(TrackRun(k, StartOn(k, y, rest, a), Initial(InitialTaints(k.observation)), n)).tainted == tainted
    ensures TaintOf(k, y, rest, a, n)[j] <==> exists l :: l in tainted && StandsFor(l, y.registerStart, j)
  {
    TaintedStands(tainted, y.registerStart, j);
  }

  /** Taint precision, for the seq and cond contracts: a word of an input is tainted after n moves exactly if it
      initialises a location that was observed at the start, or one on which a location that a move shows depends at
      the end of this move. */
  lemma TaintIsPrecise(k: Contract, y: Layout, rest: Cpu, a: seq<int>, n: nat, j: nat)
    requires ValidProgram(k) && !k.execution.Bpas? && ValidInput(y, a) && j < y.DataSize()
    ensures var c, t := StartOn(k, y, rest, a), Initial(InitialTaints(k.observation));
            TaintOf(k, y, rest, a, n)[j] <==>
              exists x :: StandsFor(x, y.registerStart, j)
                && (x in InitialTaints(k.observation) || Shown(k, c, t, n, x))
  {
    var c, t := StartOn(k, y, rest, a), Initial(InitialTaints(k.observation));
    var tainted := Settle(TrackRun(k, c, t, n)).tainted;
    TaintOfStands(k, y, rest, a, n, j, tainted);
    forall x ensures x in tainted <==> x in InitialTaints(k.observation) || Shown(k, c, t, n, x)
    {
      RunTaints(k, c, t, n, x);
    }
  }

  /** What ctr and arch observe at the start are the register words and the word of the flags. */
  lemma StartTaints(o: Observation, s: nat, j: nat)
    ensures (exists x :: x in InitialTaints(o) && StandsFor(x, s, j)) <==> !o.Ct? && s <= j < s + 7
  {
    if !o.Ct? && s <= j < s + 7 {
      if j == s + 6 {
        assert StandsFor(FlagLabel(CF), s, j);
      } else {
        var r := RegLabel(INPUT_REGISTERS[j - s]);
        assert r in InitialTaints(o) && StandsFor(r, s, j);
      }
    }
  }

  // ----- One run: the load MOV RAX, [R14 + RBX] alone -----

  ghost predicate NothingTracked(t: Tracker) {
    Settle(t).deps == map[] && Settle(t).tainted == {} && t.checkpoints == []
  }

  /** A first move that writes none of what it shows taints just that. */
  lemma FirstMoveTaints(k: Contract, c: Config, t: Tracker, shown: set<Label>, x: Label)
    requires ValidProgram(k) && !k.execution.Bpas? && WellStacked(c) && c.saved == [] && Running(k, c)
    requires NothingTracked(t)
    requires forall l :: Observes(k, c, l) <==> l in shown
    requires forall l :: l in shown ==> !WritesLocation(k, c, l)
    ensures x in Settle(TrackStep(k, c, t)).tainted <==> x in shown
  {
    MoveTaints(k, c, t, x);
    if x in shown {
      MoveDepends(k, c, t, x, x);
    }
    if l :| Observes(k, c, l) && x in Of(Settle(TrackStep(k, c, t)).deps, l) {
      MoveDepends(k, c, t, l, x);
    }
  }

  lemma {:induction false} NothingFollows(k: Contract, c: Config, t: Tracker, n: nat)
    requires ValidProgram(k) && WellStacked(c) && c.cpu.pc !in k.prog && c.saved == [] && |t.checkpoints| == |c.saved|
    ensures TrackRun(k, c, t, n) == t
    decreases n
  {
    if n > 0 {
      NothingFollows(k, c, t, n - 1);
    }
  }

  lemma EndsAfterOne(k: Contract, c: Config, t: Tracker, n: nat, c': Config, t': Tracker)
    requires ValidProgram(k) && WellStacked(c) && |t.checkpoints| == |c.saved| && n > 0
    requires WellStacked(c') && |t'.checkpoints| == |c'.saved|
    requires TrackRun(k, c, t, n) == TrackRun(k, c', t', n - 1)
    requires c'.cpu.pc !in k.prog && c'.saved == []
    ensures TrackRun(k, c, t, n) == t'
  {
    NothingFollows(k, c', t', n - 1);
  }

  lemma SameLabels(s: set<Label>, t: set<Label>)
    requires forall x :: x in s <==> x in t
    ensures s == t
  {
  }

  lemma OneMoveTaints(k: Contract, c: Config, t: Tracker, shown: set<Label>)
    requires ValidProgram(k) && !k.execution.Bpas? && WellStacked(c) && c.saved == [] && Running(k, c)
    requires NothingTracked(t)
    requires forall l :: Observes(k, c, l) <==> l in shown
    requires forall l :: l in shown ==> !WritesLocation(k, c, l)
    ensures Settle(TrackStep(k, c, t)).tainted == shown
  {
    var tainted := Settle(TrackStep(k, c, t)).tainted;
    forall x ensures x in tainted <==> x in shown {
      FirstMoveTaints(k, c, t, shown, x);
    }
    SameLabels(tainted, shown);
  }

  ghost predicate AtLoad(k: Contract, mask: nat, c: Config) {
    && IsSandboxedLoad(k, mask) && ValidProgram(k) && !k.execution.Bpas? && k.observation.Ct?
    && c.cpu.pc == 9 && WellStacked(c) && c.saved == [] && !c.stopped
  }

  lemma LoadExecutes(k: Contract, mask: nat, c: Config)
    requires AtLoad(k, mask, c)
    ensures Executes(k, c)
    ensures Step(k, c).cpu.pc == 13 && Step(k, c).saved == []
    ensures LoadsOf(LoadInsn(), c.cpu) != []
  {
    assert k.prog[9] == LoadInsn();
    assert DecodeTarget(LoadInsn().code) == 0;
    ExecutedStep(k, c);
  }

  lemma LoadRegisters(r: string)
    ensures AddressesBy(LoadInsn(), r) <==> r in {"14", "B"}
    ensures WritesReg(LoadInsn(), r) <==> r == "A"
  {
    assert LoadInsn().operands[0] == RegOp("A", false, true) && LoadInsn().operands[1] == MemOp(["14", "B"]);
  }

  lemma LoadShows(k: Contract, mask: nat, c: Config, l: Label)
    requires AtLoad(k, mask, c)
    ensures Observes(k, c, l) <==> l in {RegLabel("14"), RegLabel("B")}
    ensures l in {RegLabel("14"), RegLabel("B")} ==> !WritesLocation(k, c, l)
  {
    LoadExecutes(k, mask, c);
    assert k.prog[c.cpu.pc] == LoadInsn() && !LoadInsn().controlFlow;
    if l.RegLabel? {
      LoadRegisters(l.reg);
    }
  }

  lemma LoadTaints(k: Contract, mask: nat, c: Config, t: Tracker)
    requires AtLoad(k, mask, c) && NothingTracked(t)
    ensures Settle(TrackStep(k, c, t)).tainted == {RegLabel("14"), RegLabel("B")}
  {
    var shown := {RegLabel("14"), RegLabel("B")};
    forall l
      ensures Observes(k, c, l) <==> l in shown
      ensures l in shown ==> !WritesLocation(k, c, l)
    {
      LoadShows(k, mask, c, l);
    }
    OneMoveTaints(k, c, t, shown);
  }

  lemma LoadRunTaints(k: Contract, mask: nat, c: Config, t: Tracker, n: nat)
    requires AtLoad(k, mask, c) && NothingTracked(t) && n > 0
    ensures Settle(TrackRun(k, c, t, n)).tainted == {RegLabel("14"), RegLabel("B")}
  {
    LoadTaints(k, mask, c, t);
    LoadExecutes(k, mask, c);
    assert 13 !in k.prog;
    RunUnfolds(k, c, t, n);
    EndsAfterOne(k, c, t, n, Step(k, c), TrackStep(k, c, t));
  }

  lemma StartsAtLoad(k: Contract, mask: nat, y: Layout, rest: Cpu, a: seq<int>)
    requires IsSandboxedLoad(k, mask) && ValidProgram(k) && !k.execution.Bpas? && k.observation.Ct?
    requires ValidInput(y, a) && rest.pc == 9
    ensures AtLoad(k, mask, StartOn(k, y, rest, a)) && NothingTracked(Initial(InitialTaints(k.observation)))
  {
  }

  /** Under ct it taints the word of RBX and no other, for every input, mask, bound and window. */
  lemma MaskedLoadTaintsOneWord(k: Contract, mask: nat, y: Layout, rest: Cpu, a: seq<int>, n: nat, j: nat)
    requires IsSandboxedLoad(k, mask) && ValidProgram(k) && !k.execution.Bpas? && k.observation.Ct?
    requires ValidInput(y, a) && rest.pc == 9 && n > 0 && j < y.DataSize()
    ensures TaintOf(k, y, rest, a, n)[j] <==> j == y.registerStart + 1
  {
    StartsAtLoad(k, mask, y, rest, a);
    LoadRunTaints(k, mask, StartOn(k, y, rest, a), Initial(InitialTaints(k.observation)), n);
    TaintOfStands(k, y, rest, a, n, j, {RegLabel("14"), RegLabel("B")});
    OneWordStands(y.registerStart, j);
  }

  lemma OneWordStands(s: nat, j: nat)
    ensures (exists l :: l in {RegLabel("14"), RegLabel("B")} && StandsFor(l, s, j)) <==> j == s + 1
  {
    OffsetStands(RegLabel("14"), s, j);
    OffsetStands(RegLabel("B"), s, j);
  }
}

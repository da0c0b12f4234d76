/** Taint soundness: two inputs that agree on the tainted words of the first run have the same
    contract trace, speculative observations included. */
module TaintSoundness {
  import opened Flags
  import opened Machine
  import opened Speculation
  import opened UndoLogs
  import opened Taint

  // ----- What the tracker needs of the operand lists -----

  /** The flags a conditional jump tests. */
  function TestedFlags(j: Jump): set<Flag> {
    match j
    case Jcc(cc, _) =>
      (match cc / 2
       case 0 => {OF} case 1 => {CF} case 2 => {ZF} case 3 => {CF, ZF}
       case 4 => {SF} case 5 => {PF} case 6 => {SF, OF} case _ => {ZF, SF, OF})
    case LoopNe(_) => {ZF}
    case LoopEq(_) => {ZF}
    case _ => {}
  }

  predicate JumpIsListed(i: Insn) {
    var j := IsaJump(i.code);
    && i.controlFlow
    && (forall f :: f in TestedFlags(j) ==> f in ReadFlags(FlagModes(i.operands)))
    && (!j.Jcc? ==> "C" in SrcRegs(i.operands))
    && (IsLoop(j) ==> "C" in DestRegs(i.operands))
  }

  predicate InSandbox(base: int, a: Access) {
    0 < a.size < 0x1_0000_0000 && NoWrap(base, a)
  }

  /** Control flow lists RIP as a destination, and whether memory is accessed at all does not depend on
      register values. */
  ghost predicate Trackable(i: Insn) {
    && (i.controlFlow ==> "RIP" in DestRegs(i.operands))
    && (!IsaJump(i.code).NoJump? ==> JumpIsListed(i))
    && (forall pc, v: seq<int>, v': seq<int> :: i.loads(pc, v) + i.stores(pc, v) == [] ==>
          i.loads(pc, v') + i.stores(pc, v') == [])
  }

  ghost predicate TrackableProgram(k: Contract) {
    && ValidProgram(k) && SmallStores(k)
    && forall pc :: pc in k.prog ==> Trackable(k.prog[pc])
  }

  /** The accesses that an instruction makes in this state do not straddle the sandbox base. */
  ghost predicate AccessesInside(base: int, i: Insn, x: Cpu) {
    && (forall n :: 0 <= n < |LoadsOf(i, x)| ==> InSandbox(base, LoadsOf(i, x)[n]))
    && (forall n :: 0 <= n < |StoresOf(i, x)| ==> InSandbox(base, StoresOf(i, x)[n]))
  }

  /** The same for the next move of a run, if it executes an instruction. */
  ghost predicate MoveInside(k: Contract, c: Config)
    requires ValidProgram(k)
  {
    Running(k, c) && !Mispredicts(k, Observe(k, c)) && !Observe(k, c).stopped ==>
      AccessesInside(k.base, k.prog[c.cpu.pc], c.cpu)
  }

  /** And for a whole run of n moves. */
  ghost predicate RunInside(k: Contract, c: Config, n: nat)
    requires ValidProgram(k) && WellStacked(c)
  {
    forall m {:trigger Run(k, c, m)} :: 0 <= m < n ==> MoveInside(k, Run(k, c, m))
  }

  lemma RunInsideNext(k: Contract, c: Config, n: nat)
    requires ValidProgram(k) && WellStacked(c) && n > 0 && RunInside(k, c, n)
    ensures MoveInside(k, c) && RunInside(k, Step(k, c), n - 1)
  {
    assert Run(k, c, 0) == c;
    forall m | 0 <= m < n - 1 ensures MoveInside(k, Run(k, Step(k, c), m)) {
      assert Run(k, c, m + 1) == Run(k, Step(k, c), m);
    }
  }

  // ----- The relation between the two runs -----

  ghost predicate Trusted(g: iset<Label>, s: set<Label>) {
    forall l :: l in s ==> l in g
  }

  /** A location whose labels are all trusted has the same value in both states. */
  ghost predicate Agree(g: iset<Label>, base: int, d: Deps, x: Cpu, y: Cpu) {
    && (forall r {:trigger Of(d, RegLabel(r))} :: Trusted(g, Of(d, RegLabel(r))) ==> x.regs[r] == y.regs[r])
    && (forall f {:trigger Of(d, FlagLabel(f))} :: Trusted(g, Of(d, FlagLabel(f))) ==> x.flags[f] == y.flags[f])
    && (forall a {:trigger Of(d, WordLabel(WordOf(base, a)))} ::
          Trusted(g, Of(d, WordLabel(WordOf(base, a)))) ==> x.mem[a] == y.mem[a])
  }

  // ----- The tracker after an instruction -----

  ghost predicate Recorded(k: Contract, i: Insn, loads: seq<Access>, stores: seq<Access>, t: Tracker) {
    && t.active
    && t.srcRegs == SrcRegs(i.operands) && t.destRegs == DestRegs(i.operands)
    && t.srcFlags == ReadFlags(FlagModes(i.operands)) + UndefFlags(FlagModes(i.operands))
    && t.destFlags == WriteFlags(FlagModes(i.operands))
    && t.addressRegs == AddressRegs(i.operands)
    && (forall n, w :: 0 <= n < |loads| && w in Blocks(k.base, loads[n]) ==> w in t.srcMems)
    && (forall n, w :: 0 <= n < |stores| && w in Blocks(k.base, stores[n]) ==> w in t.destMems)
    && (loads + stores != [] ==> forall r :: r in t.addressRegs ==> RegLabel(r) in t.pending)
    && (i.controlFlow ==> RegLabel("RIP") in t.pending)
    && (k.observation.Arch? ==>
          forall n, w :: 0 <= n < |loads| && w in Blocks(k.base, loads[n]) ==> WordLabel(w) in t.pending)
  }

  lemma InLabels(rs: seq<string>, ws: seq<int>)
    ensures forall r :: r in rs <==> RegLabel(r) in RegLabels(rs)
    ensures forall w :: w in ws <==> WordLabel(w) in WordLabels(ws)
  {
    forall r | r in rs ensures RegLabel(r) in RegLabels(rs) {
      var n :| 0 <= n < |rs| && rs[n] == r;
      assert RegLabels(rs)[n] == RegLabel(r);
    }
    forall w | w in ws ensures WordLabel(w) in WordLabels(ws) {
      var n :| 0 <= n < |ws| && ws[n] == w;
      assert WordLabels(ws)[n] == WordLabel(w);
    }
  }

  lemma {:induction false} LoadsRecorded(k: Contract, i: Insn, t: Tracker, loads: seq<Access>)
    requires Recorded(k, i, [], [], t)
    ensures Recorded(k, i, loads, [], TrackLoads(k, t, loads))
  {
    if loads != [] {
      var n := |loads| - 1;
      LoadsRecorded(k, i, t, loads[..n]);
      var p := TrackLoads(k, t, loads[..n]);
      InLabels(p.addressRegs, p.srcMems + Blocks(k.base, loads[n]));
    }
  }

  lemma StoreRecorded(k: Contract, i: Insn, t: Tracker, loads: seq<Access>, stores: seq<Access>, a: Access)
    requires Recorded(k, i, loads, stores, t)
    ensures Recorded(k, i, loads, stores + [a], TaintAddress(TrackAccess(t, k.base, a, true)))
  {
    InLabels(t.addressRegs, []);
  }

  lemma {:induction false} StoresRecorded(k: Contract, i: Insn, t: Tracker, loads: seq<Access>, stores: seq<Access>)
    requires Recorded(k, i, loads, [], t)
    ensures Recorded(k, i, loads, stores, TrackStores(k, t, stores))
  {
    if stores != [] {
      var n := |stores| - 1;
      StoresRecorded(k, i, t, loads, stores[..n]);
      StoreRecorded(k, i, TrackStores(k, t, stores[..n]), loads, stores[..n], stores[n]);
      assert stores[..n] + [stores[n]] == stores;
    }
  }

  lemma StartRecorded(k: Contract, i: Insn, t: Tracker)
    ensures var r := TaintPc(StartInstruction(t, i));
            Recorded(k, i, [], [], r) && r.deps == Settle(t).deps && r.checkpoints == t.checkpoints
  {
  }

  lemma InstructionRecorded(k: Contract, i: Insn, t: Tracker, cpu: Cpu)
    ensures var r := TrackInstruction(k, TaintPc(StartInstruction(t, i)), i, cpu);
            Recorded(k, i, LoadsOf(i, cpu), StoresOf(i, cpu), r) && r.deps == Settle(t).deps
  {
    var t1 := TaintPc(StartInstruction(t, i));
    StartRecorded(k, i, t);
    LoadsRecorded(k, i, t1, LoadsOf(i, cpu));
    StoresRecorded(k, i, TrackLoads(k, t1, LoadsOf(i, cpu)), LoadsOf(i, cpu), StoresOf(i, cpu));
    TrackLoadsFrame(k, t1, LoadsOf(i, cpu));
    TrackStoresFrame(k, TrackLoads(k, t1, LoadsOf(i, cpu)), StoresOf(i, cpu));
  }

  lemma PendingIsTainted(t: Tracker, l: Label)
    requires l in t.pending
    ensures Of(Finalize(t).deps, l) <= Finalize(t).tainted
  {
  }

  // ----- One instruction -----

  lemma FinalizeGrows(t: Tracker, l: Label)
    ensures Of(t.deps, l) <= Of(Finalize(t).deps, l)
    ensures l in Targets(t) ==> UnionOf(t.deps, Sources(t)) <= Of(Finalize(t).deps, l)
    ensures l !in Targets(t) ==> Of(Finalize(t).deps, l) == Of(t.deps, l)
  {
  }

  /** Growing the dependencies only weakens the relation. */
  lemma AgreeWeakens(g: iset<Label>, base: int, t: Tracker, x: Cpu, y: Cpu)
    requires Agree(g, base, t.deps, x, y)
    ensures Agree(g, base, Finalize(t).deps, x, y)
  {
    var d := Finalize(t).deps;
    forall l ensures Trusted(g, Of(d, l)) ==> Trusted(g, Of(t.deps, l)) {
      FinalizeGrows(t, l);
    }
  }

  lemma SameAddressRegisters(g: iset<Label>, base: int, t: Tracker, x: Cpu, y: Cpu)
    requires Agree(g, base, t.deps, x, y) && Trusted(g, Finalize(t).tainted)
    requires forall r :: r in t.addressRegs ==> RegLabel(r) in t.pending
    ensures RegValues(x.regs, t.addressRegs) == RegValues(y.regs, t.addressRegs)
  {
    var rs := t.addressRegs;
    forall n | 0 <= n < |rs| ensures x.regs[rs[n]] == y.regs[rs[n]] {
      PendingIsTainted(t, RegLabel(rs[n]));
      FinalizeGrows(t, RegLabel(rs[n]));
      assert Trusted(g, Of(t.deps, RegLabel(rs[n])));
    }
  }

  /** Trusted address registers give the same addresses. */
  lemma SameAccesses(g: iset<Label>, k: Contract, i: Insn, t: Tracker, x: Cpu, y: Cpu)
    requires Trackable(i) && x.pc == y.pc
    requires Agree(g, k.base, t.deps, x, y)
    requires Recorded(k, i, LoadsOf(i, x), StoresOf(i, x), t)
    requires Trusted(g, Finalize(t).tainted)
    ensures LoadsOf(i, x) == LoadsOf(i, y) && StoresOf(i, x) == StoresOf(i, y)
  {
    if IsaJump(i.code).NoJump? {
      if LoadsOf(i, x) + StoresOf(i, x) != [] {
        SameAddressRegisters(g, k.base, t, x, y);
      } else {
        NoAccesses(i, x.pc, RegValues(x.regs, t.addressRegs), RegValues(y.regs, t.addressRegs));
      }
    }
  }

  lemma NoAccesses(i: Insn, pc: int, v: seq<int>, v': seq<int>)
    requires Trackable(i) && i.loads(pc, v) + i.stores(pc, v) == []
    ensures i.loads(pc, v) == i.loads(pc, v') && i.stores(pc, v) == i.stores(pc, v')
  {
    assert i.loads(pc, v') + i.stores(pc, v') == [];
  }

  ghost predicate AllCovered(base: int, accesses: seq<Access>) {
    forall n :: 0 <= n < |accesses| ==> Covered(base, accesses[n])
  }

  lemma AccessesCovered(base: int, i: Insn, x: Cpu)
    requires AccessesInside(base, i, x)
    ensures AllCovered(base, LoadsOf(i, x)) && AllCovered(base, StoresOf(i, x))
  {
    forall n | 0 <= n < |LoadsOf(i, x)| ensures Covered(base, LoadsOf(i, x)[n]) {
      BlocksCover(base, LoadsOf(i, x)[n]);
    }
    forall n | 0 <= n < |StoresOf(i, x)| ensures Covered(base, StoresOf(i, x)[n]) {
      BlocksCover(base, StoresOf(i, x)[n]);
    }
  }

  lemma SourceTrusted(g: iset<Label>, t: Tracker, l: Label)
    requires l in Sources(t) && Trusted(g, UnionOf(t.deps, Sources(t)))
    ensures Trusted(g, Of(t.deps, l))
  {
    var n :| 0 <= n < |Sources(t)| && Sources(t)[n] == l;
    assert Of(t.deps, Sources(t)[n]) <= UnionOf(t.deps, Sources(t));
  }

  lemma RegIsSource(t: Tracker, n: nat)
    requires n < |t.srcRegs|
    ensures RegLabel(t.srcRegs[n]) in Sources(t)
  {
    assert Sources(t)[n] == RegLabel(t.srcRegs[n]);
  }

  lemma FlagIsSource(t: Tracker, n: nat)
    requires n < |t.srcFlags|
    ensures FlagLabel(t.srcFlags[n]) in Sources(t)
  {
    assert Sources(t)[|t.srcRegs| + n] == FlagLabel(t.srcFlags[n]);
  }

  lemma WordIsSource(t: Tracker, w: int)
    requires w in t.srcMems
    ensures WordLabel(w) in Sources(t)
  {
    InLabels([], t.srcMems);
  }

  lemma IsTarget(t: Tracker)
    ensures forall r :: r in t.destRegs <==> RegLabel(r) in Targets(t)
    ensures forall f :: f in t.destFlags <==> FlagLabel(f) in Targets(t)
    ensures forall w :: w in t.destMems <==> WordLabel(w) in Targets(t)
  {
    InLabels(t.destRegs, t.destMems);
    forall f | f in t.destFlags ensures FlagLabel(f) in FlagLabels(t.destFlags) {
      var n :| 0 <= n < |t.destFlags| && t.destFlags[n] == f;
      assert FlagLabels(t.destFlags)[n] == FlagLabel(f);
    }
  }

  /** Trusted sources give the same view of the operands. */
  lemma SameRegisters(g: iset<Label>, k: Contract, t: Tracker, x: Cpu, y: Cpu)
    requires Agree(g, k.base, t.deps, x, y) && Trusted(g, UnionOf(t.deps, Sources(t)))
    ensures RegValues(x.regs, t.srcRegs) == RegValues(y.regs, t.srcRegs)
    ensures FlagValues(x.flags, t.srcFlags) == FlagValues(y.flags, t.srcFlags)
  {
    forall n | 0 <= n < |t.srcRegs| ensures x.regs[t.srcRegs[n]] == y.regs[t.srcRegs[n]] {
      RegIsSource(t, n);
      SourceTrusted(g, t, RegLabel(t.srcRegs[n]));
    }
    forall n | 0 <= n < |t.srcFlags| ensures x.flags[t.srcFlags[n]] == y.flags[t.srcFlags[n]] {
      FlagIsSource(t, n);
      SourceTrusted(g, t, FlagLabel(t.srcFlags[n]));
    }
  }

  lemma SameLoaded(g: iset<Label>, k: Contract, t: Tracker, x: Cpu, y: Cpu, loads: seq<Access>)
    requires Agree(g, k.base, t.deps, x, y) && AllCovered(k.base, loads)
    requires forall n, w :: 0 <= n < |loads| && w in Blocks(k.base, loads[n]) ==> Trusted(g, Of(t.deps, WordLabel(w)))
    ensures Loaded(x.mem, loads) == Loaded(y.mem, loads)
  {
    forall n | 0 <= n < |loads|
      ensures ReadBytes(x.mem, loads[n].addr, loads[n].size) == ReadBytes(y.mem, loads[n].addr, loads[n].size)
    {
      forall a | loads[n].addr <= a < loads[n].addr + loads[n].size ensures x.mem[a] == y.mem[a] {
        assert Covered(k.base, loads[n]);
        assert WordOf(k.base, a) in Blocks(k.base, loads[n]);
        assert Trusted(g, Of(t.deps, WordLabel(WordOf(k.base, a))));
      }
    }
  }

  lemma SameView(g: iset<Label>, k: Contract, i: Insn, t: Tracker, x: Cpu, y: Cpu)
    requires Trackable(i) && AccessesInside(k.base, i, x) && x.pc == y.pc
    requires Agree(g, k.base, t.deps, x, y)
    requires LoadsOf(i, x) == LoadsOf(i, y) && StoresOf(i, x) == StoresOf(i, y)
    requires Recorded(k, i, LoadsOf(i, x), StoresOf(i, x), t)
    requires Trusted(g, UnionOf(t.deps, Sources(t)))
    ensures ViewOf(i, x) == ViewOf(i, y)
  {
    SameRegisters(g, k, t, x, y);
    var fs := ReadFlags(FlagModes(i.operands));
    assert FlagValues(x.flags, fs) == FlagValues(x.flags, t.srcFlags)[..|fs|];
    assert FlagValues(y.flags, fs) == FlagValues(y.flags, t.srcFlags)[..|fs|];
    AccessesCovered(k.base, i, x);
    var loads := LoadsOf(i, x);
    forall n, w | 0 <= n < |loads| && w in Blocks(k.base, loads[n]) ensures Trusted(g, Of(t.deps, WordLabel(w))) {
      WordIsSource(t, w);
      SourceTrusted(g, t, WordLabel(w));
    }
    SameLoaded(g, k, t, x, y, loads);
  }

  // ----- Memory after the stores -----

  lemma {:induction false} StoresAgreeAt(i: Insn, v: View, m: Mem, m': Mem, stores: seq<Access>, a: int)
    requires m[a] == m'[a]
    ensures DoStores(i, v, m, stores)[a] == DoStores(i, v, m', stores)[a]
  {
    if stores != [] {
      StoresAgreeAt(i, v, m, m', stores[..|stores| - 1], a);
    }
  }

  lemma {:induction false} StoresMissByte(i: Insn, v: View, m: Mem, stores: seq<Access>, a: int)
    requires forall n :: 0 <= n < |stores| ==> !(stores[n].addr <= a < stores[n].addr + stores[n].size)
    ensures DoStores(i, v, m, stores)[a] == m[a]
  {
    if stores != [] {
      StoresMissByte(i, v, m, stores[..|stores| - 1], a);
    }
  }

  lemma MemAgrees(g: iset<Label>, k: Contract, i: Insn, t: Tracker, x: Cpu, y: Cpu, a: int)
    requires Trackable(i) && AccessesInside(k.base, i, x) && x.pc == y.pc && IsaJump(i.code).NoJump?
    requires Agree(g, k.base, t.deps, x, y)
    requires LoadsOf(i, x) == LoadsOf(i, y) && StoresOf(i, x) == StoresOf(i, y)
    requires Recorded(k, i, LoadsOf(i, x), StoresOf(i, x), t)
    requires Trusted(g, Of(Finalize(t).deps, WordLabel(WordOf(k.base, a))))
    ensures Exec(i, x).mem[a] == Exec(i, y).mem[a]
  {
    var l := WordLabel(WordOf(k.base, a));
    FinalizeGrows(t, l);
    assert Trusted(g, Of(t.deps, l));
    if l in Targets(t) {
      SameView(g, k, i, t, x, y);
      StoresAgreeAt(i, ViewOf(i, x), x.mem, y.mem, StoresOf(i, x), a);
    } else {
      IsTarget(t);
      AccessesCovered(k.base, i, x);
      var stores := StoresOf(i, x);
      forall n | 0 <= n < |stores| ensures !(stores[n].addr <= a < stores[n].addr + stores[n].size) {
        assert Covered(k.base, stores[n]);
      }
      StoresMissByte(i, ViewOf(i, x), x.mem, stores, a);
      StoresMissByte(i, ViewOf(i, y), y.mem, stores, a);
    }
  }

  // ----- One instruction preserves the relation -----

  lemma SourcesOfControlFlow(g: iset<Label>, k: Contract, i: Insn, loads: seq<Access>, stores: seq<Access>, t: Tracker)
    requires i.controlFlow && "RIP" in DestRegs(i.operands) && Recorded(k, i, loads, stores, t)
    requires Trusted(g, Finalize(t).tainted)
    ensures Trusted(g, UnionOf(t.deps, Sources(t)))
  {
    PendingIsTainted(t, RegLabel("RIP"));
    IsTarget(t);
    FinalizeGrows(t, RegLabel("RIP"));
  }

  lemma RegAgrees(g: iset<Label>, k: Contract, i: Insn, t: Tracker, x: Cpu, y: Cpu, r: string)
    requires IsaJump(i.code).NoJump? && Agree(g, k.base, t.deps, x, y)
    requires Recorded(k, i, LoadsOf(i, x), StoresOf(i, x), t)
    requires Trusted(g, UnionOf(t.deps, Sources(t))) ==> ViewOf(i, x) == ViewOf(i, y)
    requires Trusted(g, Of(Finalize(t).deps, RegLabel(r)))
    ensures Exec(i, x).regs[r] == Exec(i, y).regs[r]
  {
    FinalizeGrows(t, RegLabel(r));
    assert Trusted(g, Of(t.deps, RegLabel(r)));
    IsTarget(t);
  }

  lemma FlagAgrees(g: iset<Label>, k: Contract, i: Insn, t: Tracker, x: Cpu, y: Cpu, f: Flag)
    requires IsaJump(i.code).NoJump? && Agree(g, k.base, t.deps, x, y)
    requires Recorded(k, i, LoadsOf(i, x), StoresOf(i, x), t)
    requires Trusted(g, UnionOf(t.deps, Sources(t))) ==> ViewOf(i, x) == ViewOf(i, y)
    requires Trusted(g, Of(Finalize(t).deps, FlagLabel(f)))
    ensures Exec(i, x).flags[f] == Exec(i, y).flags[f]
  {
    FinalizeGrows(t, FlagLabel(f));
    assert Trusted(g, Of(t.deps, FlagLabel(f)));
    IsTarget(t);
    NewFlagAgrees(i, ViewOf(i, x), ViewOf(i, y), x.flags, y.flags, f);
    ExecFlag(i, x, f);
    ExecFlag(i, y, f);
  }

  lemma NewFlagAgrees(i: Insn, v: View, v': View, x: FlagFile, y: FlagFile, f: Flag)
    requires x[f] == y[f] && (f in WriteFlags(FlagModes(i.operands)) ==> v == v')
    ensures NewFlag(i, v, x, f) == NewFlag(i, v', y, f)
  {
  }

  lemma ExecFlag(i: Insn, x: Cpu, f: Flag)
    requires IsaJump(i.code).NoJump?
    ensures Exec(i, x).flags[f] == NewFlag(i, ViewOf(i, x), x.flags, f)
  {
  }

  lemma PcAgrees(g: iset<Label>, k: Contract, i: Insn, t: Tracker, x: Cpu, y: Cpu)
    requires Trackable(i) && AccessesInside(k.base, i, x) && x.pc == y.pc && IsaJump(i.code).NoJump?
    requires Agree(g, k.base, t.deps, x, y)
    requires LoadsOf(i, x) == LoadsOf(i, y) && StoresOf(i, x) == StoresOf(i, y)
    requires Recorded(k, i, LoadsOf(i, x), StoresOf(i, x), t)
    requires Trusted(g, Finalize(t).tainted)
    ensures Exec(i, x).pc == Exec(i, y).pc
  {
    if i.controlFlow {
      SourcesOfControlFlow(g, k, i, LoadsOf(i, x), StoresOf(i, x), t);
      SameView(g, k, i, t, x, y);
    }
  }

  lemma EffectAgrees(g: iset<Label>, k: Contract, i: Insn, t: Tracker, x: Cpu, y: Cpu)
    requires Trackable(i) && AccessesInside(k.base, i, x) && x.pc == y.pc && IsaJump(i.code).NoJump?
    requires Agree(g, k.base, t.deps, x, y)
    requires LoadsOf(i, x) == LoadsOf(i, y) && StoresOf(i, x) == StoresOf(i, y)
    requires Recorded(k, i, LoadsOf(i, x), StoresOf(i, x), t)
    ensures Agree(g, k.base, Finalize(t).deps, Exec(i, x), Exec(i, y))
  {
    var d, x', y' := Finalize(t).deps, Exec(i, x), Exec(i, y);
    if Trusted(g, UnionOf(t.deps, Sources(t))) {
      SameView(g, k, i, t, x, y);
    }
    forall r | Trusted(g, Of(d, RegLabel(r))) ensures x'.regs[r] == y'.regs[r] {
      RegAgrees(g, k, i, t, x, y, r);
    }
    forall f | Trusted(g, Of(d, FlagLabel(f))) ensures x'.flags[f] == y'.flags[f] {
      FlagAgrees(g, k, i, t, x, y, f);
    }
    forall a | Trusted(g, Of(d, WordLabel(WordOf(k.base, a)))) ensures x'.mem[a] == y'.mem[a] {
      MemAgrees(g, k, i, t, x, y, a);
    }
  }

  lemma TakenDepends(j: Jump, f: FlagFile, f': FlagFile, rcx: int)
    requires !j.NoJump? && (j.Jcc? ==> j.cc < 16)
    requires forall x :: x in TestedFlags(j) ==> f[x] == f'[x]
    ensures Taken(j, f, rcx) == Taken(j, f', rcx)
  {
  }

  lemma JccDepends(j: Jump, f: FlagFile, rcx: int, rcx': int)
    requires j.Jcc?
    ensures Taken(j, f, rcx) == Taken(j, f, rcx')
  {
  }

  lemma JumpDecisionAgrees(g: iset<Label>, k: Contract, i: Insn, t: Tracker, x: Cpu, y: Cpu)
    requires JumpIsListed(i) && ValidEncoding(i.code) && !IsaJump(i.code).NoJump?
    requires Agree(g, k.base, t.deps, x, y)
    requires t.srcRegs == SrcRegs(i.operands)
    requires t.srcFlags == ReadFlags(FlagModes(i.operands)) + UndefFlags(FlagModes(i.operands))
    requires Trusted(g, UnionOf(t.deps, Sources(t)))
    ensures Taken(IsaJump(i.code), x.flags, x.regs["C"]) == Taken(IsaJump(i.code), y.flags, y.regs["C"])
    ensures !IsaJump(i.code).Jcc? ==> x.regs["C"] == y.regs["C"]
  {
    var j := IsaJump(i.code);
    SameRegisters(g, k, t, x, y);
    assert forall f :: f in TestedFlags(j) ==> f in t.srcFlags;
    SameTestedFlags(j, t.srcFlags, x.flags, y.flags);
    if j.Jcc? {
      TakenDepends(j, x.flags, y.flags, x.regs["C"]);
      JccDepends(j, y.flags, x.regs["C"], y.regs["C"]);
    } else {
      SameValue(t.srcRegs, x.regs, y.regs, "C");
      TakenDepends(j, x.flags, y.flags, x.regs["C"]);
    }
  }

  lemma SameTestedFlags(j: Jump, fs: seq<Flag>, x: FlagFile, y: FlagFile)
    requires FlagValues(x, fs) == FlagValues(y, fs)
    requires forall f :: f in TestedFlags(j) ==> f in fs
    ensures forall f :: f in TestedFlags(j) ==> x[f] == y[f]
  {
    forall f | f in TestedFlags(j) ensures x[f] == y[f] {
      var n :| 0 <= n < |fs| && fs[n] == f;
      assert FlagValues(x, fs)[n] == FlagValues(y, fs)[n];
    }
  }

  lemma SameValue(rs: seq<string>, x: RegFile, y: RegFile, r: string)
    requires RegValues(x, rs) == RegValues(y, rs) && r in rs
    ensures x[r] == y[r]
  {
    var n :| 0 <= n < |rs| && rs[n] == r;
    assert RegValues(x, rs)[n] == RegValues(y, rs)[n];
  }

  /** What a LOOP instruction does to the registers. */
  function AfterDecrement(j: Jump, x: Cpu): Cpu {
    if IsLoop(j) then x.(regs := x.regs["C" := Decrement(x.regs["C"])]) else x
  }

  lemma DecrementAgrees(g: iset<Label>, base: int, d: Deps, j: Jump, x: Cpu, y: Cpu)
    requires Agree(g, base, d, x, y) && (IsLoop(j) ==> x.regs["C"] == y.regs["C"])
    ensures Agree(g, base, d, AfterDecrement(j, x), AfterDecrement(j, y))
  {
  }

  lemma PcIsNoLocation(g: iset<Label>, base: int, d: Deps, x: Cpu, y: Cpu, pc: int, pc': int)
    requires Agree(g, base, d, x, y)
    ensures Agree(g, base, d, x.(pc := pc), y.(pc := pc'))
  {
  }

  lemma JumpEffect(i: Insn, x: Cpu, y: Cpu)
    requires !IsaJump(i.code).NoJump? && x.pc == y.pc
    requires Taken(IsaJump(i.code), x.flags, x.regs["C"]) == Taken(IsaJump(i.code), y.flags, y.regs["C"])
    ensures Exec(i, x) == AfterDecrement(IsaJump(i.code), x).(pc := Exec(i, x).pc)
    ensures Exec(i, y) == AfterDecrement(IsaJump(i.code), y).(pc := Exec(i, x).pc)
  {
  }

  lemma JumpAgrees(g: iset<Label>, k: Contract, i: Insn, t: Tracker, x: Cpu, y: Cpu)
    requires JumpIsListed(i) && ValidEncoding(i.code) && !IsaJump(i.code).NoJump? && x.pc == y.pc
    requires Agree(g, k.base, t.deps, x, y)
    requires t.srcRegs == SrcRegs(i.operands)
    requires t.srcFlags == ReadFlags(FlagModes(i.operands)) + UndefFlags(FlagModes(i.operands))
    requires Trusted(g, UnionOf(t.deps, Sources(t)))
    ensures Exec(i, x).pc == Exec(i, y).pc
    ensures Agree(g, k.base, Finalize(t).deps, Exec(i, x), Exec(i, y))
  {
    var j := IsaJump(i.code);
    JumpDecisionAgrees(g, k, i, t, x, y);
    AgreeWeakens(g, k.base, t, x, y);
    DecrementAgrees(g, k.base, Finalize(t).deps, j, x, y);
    JumpEffect(i, x, y);
    PcIsNoLocation(g, k.base, Finalize(t).deps, AfterDecrement(j, x), AfterDecrement(j, y),
                   Exec(i, x).pc, Exec(i, x).pc);
  }
}

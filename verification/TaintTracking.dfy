/** The taint tracker as an object whose hooks update it in place; every method is proved against the
    corresponding transition on tracker states. */
module TaintTracking {
  import opened Flags
  import opened Machine
  import opened Taint

  lemma {:induction false} NoneListed(m: Modes, kinds: set<Mode>, n: nat)
    requires n <= |m| && forall i :: 0 <= i < n ==> m[i] !in kinds
    ensures FlagList(m, kinds, n) == []
  {
    if n > 0 {
      NoneListed(m, kinds, n - 1);
    }
  }

  lemma NoFlags()
    ensures ReadFlags(UNUSED) == UndefFlags(UNUSED) == WriteFlags(UNUSED) == []
  {
    NoneListed(UNUSED, {Read, ReadWrite, ReadCondWrite}, |UNUSED|);
    NoneListed(UNUSED, {Write, ReadWrite, ReadCondWrite}, |UNUSED|);
    NoneListed(UNUSED, {Undefined}, |UNUSED|);
  }

  lemma SpreadNext(d: Deps, targets: seq<Label>, n: nat, labels: set<Label>)
    requires n < |targets|
    ensures var p := Spread(d, targets[..n], labels);
            Spread(d, targets[..n + 1], labels) == p[targets[n] := Of(p, targets[n]) + labels]
  {
    assert targets[..n + 1][..n] == targets[..n];
  }

  class TaintTracker {
    var active: bool
    var controlFlow: bool
    var srcRegs: seq<string>
    var srcFlags: seq<Flag>
    var srcMems: seq<int>
    var destRegs: seq<string>
    var destFlags: seq<Flag>
    var destMems: seq<int>
    var addressRegs: seq<string>
    var pending: seq<Label>
    var deps: Deps
    var tainted: set<Label>
    var checkpoints: seq<Deps>

    ghost function State(): Tracker
      reads this
    {
      Tracker(active, controlFlow, srcRegs, srcFlags, srcMems, destRegs, destFlags, destMems, addressRegs, pending,
              deps, tainted, checkpoints)
    }

    constructor (observed: set<Label>)
      ensures State() == Initial(observed)
    {
      active, controlFlow := false, false;
      srcRegs, srcFlags, srcMems := [], [], [];
      destRegs, destFlags, destMems := [], [], [];
      addressRegs, pending := [], [];
      deps, tainted, checkpoints := map[], observed, [];
    }

    /** All labels that some locations depend on. */
    static method LabelsOf(d: Deps, locations: seq<Label>) returns (labels: set<Label>)
      ensures labels == UnionOf(d, locations)
    {
      labels := {};
      for n := 0 to |locations|
        invariant labels == UnionOf(d, locations[..n])
      {
        assert locations[..n + 1][..n] == locations[..n];
        labels := labels + Of(d, locations[n]);
      }
      assert locations[..|locations|] == locations;
    }

    /** Add labels to some locations, each of which keeps those it has. */
    static method Propagate(start: Deps, targets: seq<Label>, labels: set<Label>) returns (d: Deps)
      ensures d == Spread(start, targets, labels)
    {
      d := start;
      for n := 0 to |targets|
        invariant d == Spread(start, targets[..n], labels)
      {
        SpreadNext(start, targets, n, labels);
        d := d[targets[n] := (if targets[n] in d then d[targets[n]] else {targets[n]}) + labels];
      }
      assert targets[..|targets|] == targets;
    }

    method FinalizeInstruction()
      modifies `deps, `tainted, `active
      ensures State() == Finalize(old(State()))
    {
      var labels := LabelsOf(deps, RegLabels(srcRegs) + FlagLabels(srcFlags) + WordLabels(srcMems));
      var d := Propagate(deps, RegLabels(destRegs) + FlagLabels(destFlags) + WordLabels(destMems), labels);
      var resolved := LabelsOf(d, pending);
      deps, tainted, active := d, tainted + resolved, false;
    }

    method SettleInstruction()
      modifies `deps, `tainted, `active
      ensures State() == Settle(old(State()))
    {
      if active {
        FinalizeInstruction();
      }
    }

    method ClearOperands(isControlFlow: bool)
      modifies `active, `controlFlow, `srcRegs, `srcFlags, `srcMems, `destRegs, `destFlags, `destMems,
        `pending, `addressRegs
      ensures active && controlFlow == isControlFlow && pending == [] && addressRegs == []
      ensures srcRegs == destRegs == [] && srcFlags == destFlags == [] && srcMems == destMems == []
    {
      active, controlFlow := true, isControlFlow;
      srcRegs, srcFlags, srcMems := [], [], [];
      destRegs, destFlags, destMems := [], [], [];
      pending, addressRegs := [], [];
    }

    method ReadOperands(ops: seq<Operand>)
      requires srcRegs == destRegs == addressRegs == [] && srcFlags == destFlags == []
      modifies `srcRegs, `destRegs, `srcFlags, `destFlags, `addressRegs
      ensures srcRegs == SrcRegs(ops) && destRegs == DestRegs(ops) && addressRegs == AddressRegs(ops)
      ensures srcFlags == ReadFlags(FlagModes(ops)) + UndefFlags(FlagModes(ops))
      ensures destFlags == WriteFlags(FlagModes(ops))
    {
      NoFlags();
      for n := 0 to |ops|
        invariant srcRegs == SrcRegs(ops[..n]) && destRegs == DestRegs(ops[..n])
        invariant addressRegs == AddressRegs(ops[..n])
        invariant srcFlags == ReadFlags(FlagModes(ops[..n])) + UndefFlags(FlagModes(ops[..n]))
        invariant destFlags == WriteFlags(FlagModes(ops[..n]))
      {
        assert ops[..n + 1][..n] == ops[..n] && ops[..n + 1][n] == ops[n];
        match ops[n]
        case RegOp(r, src, dest) =>
          if src {
            srcRegs := srcRegs + [r];
          }
          if dest {
            destRegs := destRegs + [r];
          }
        case FlagsOp(modes) =>
          srcFlags := ReadFlags(modes);
          srcFlags := srcFlags + UndefFlags(modes);
          destFlags := WriteFlags(modes);
        case MemOp(rs) =>
          addressRegs := addressRegs + rs;
        case OtherOp =>
      }
      assert ops[..|ops|] == ops;
    }

    method StartInstruction(i: Insn)
      modifies this
      ensures State() == Taint.StartInstruction(old(State()), i)
    {
      SettleInstruction();
      ClearOperands(i.controlFlow);
      ReadOperands(i.operands);
    }

    method TrackMemoryAccess(base: int, a: Access, isWrite: bool)
      modifies this
      ensures State() == TrackAccess(old(State()), base, a, isWrite)
    {
      var block, last := WordOf(base, a.addr), WordOf(base, a.addr + a.size - 1);
      var blocks := [];
      while block <= last
        invariant State() == old(State())
        invariant block == WordOf(base, a.addr) + 8 * |blocks|
        invariant blocks != [] ==> block <= last + 8
        invariant forall n :: 0 <= n < |blocks| ==> blocks[n] == WordOf(base, a.addr) + 8 * n
      {
        blocks := blocks + [block];
        block := block + 8;
      }
      assert blocks == Blocks(base, a);
      if isWrite {
        destMems := destMems + blocks;
      } else {
        srcMems := srcMems + blocks;
      }
    }

    method TaintPc()
      modifies this
      ensures State() == Taint.TaintPc(old(State()))
    {
      if active && controlFlow {
        pending := pending + [RegLabel("RIP")];
      }
    }

    method TaintMemoryAccessAddress()
      modifies `pending
      ensures State() == TaintAddress(old(State()))
    {
      for n := 0 to |addressRegs|
        invariant pending == old(pending) + RegLabels(addressRegs)[..n]
      {
        pending := pending + [RegLabel(addressRegs[n])];
      }
      assert RegLabels(addressRegs)[..|addressRegs|] == RegLabels(addressRegs);
    }

    method TaintMemoryLoad()
      modifies `pending
      ensures State() == TaintLoad(old(State()))
    {
      for n := 0 to |srcMems|
        invariant pending == old(pending) + WordLabels(srcMems)[..n]
      {
        pending := pending + [WordLabel(srcMems[n])];
      }
      assert WordLabels(srcMems)[..|srcMems|] == WordLabels(srcMems);
    }

    method Checkpoint()
      modifies this
      ensures State() == TakeCheckpoint(old(State()))
    {
      SettleInstruction();
      checkpoints := checkpoints + [deps];
    }

    method Rollback()
      requires checkpoints != []
      modifies this
      ensures State() == RestoreCheckpoint(old(State()))
    {
      SettleInstruction();
      deps, checkpoints := checkpoints[|checkpoints| - 1], checkpoints[..|checkpoints| - 1];
    }

    method InputTaint(registerStart: nat, size: nat) returns (taint: seq<bool>)
      modifies this
      ensures State() == Settle(old(State()))
      ensures taint == GetTaint(old(State()), registerStart, size)
      ensures |taint| == size
      ensures forall j :: 0 <= j < size ==> (taint[j] <==> exists l :: l in tainted && StandsFor(l, registerStart, j))
    {
      SettleInstruction();
      var positions: set<int> :=
        set l | l in tainted && InputOffset(l, registerStart) >= 0 :: InputOffset(l, registerStart);
      taint := [];
      for j := 0 to size
        invariant State() == Settle(old(State()))
        invariant |taint| == j && forall n :: 0 <= n < j ==> taint[n] == IsTainted(tainted, registerStart, n)
      {
        taint := taint + [j in positions];
      }
      forall j | 0 <= j < size ensures taint[j] <==> exists l :: l in tainted && StandsFor(l, registerStart, j) {
        TaintedStands(tainted, registerStart, j);
      }
    }
  }
}

/** The taint tracker as a state and the transitions on it. One dependency map, keyed by labels of
    three kinds, stands for the tool's three dictionaries. */
module Taint {
  import opened Flags
  import opened Machine
  import opened Speculation

  /** A register, a flag, or the 8-byte memory block at an offset from the sandbox base. */
  datatype Label = RegLabel(reg: string) | FlagLabel(flag: Flag) | WordLabel(offset: int)

  type Deps = map<Label, set<Label>>

  datatype Tracker = Tracker(
    active: bool,
    controlFlow: bool,
    srcRegs: seq<string>,
    srcFlags: seq<Flag>,
    srcMems: seq<int>,
    destRegs: seq<string>,
    destFlags: seq<Flag>,
    destMems: seq<int>,
    addressRegs: seq<string>,
    pending: seq<Label>,
    deps: Deps,
    tainted: set<Label>,
    checkpoints: seq<Deps>)

  // ----- Labels of memory -----

  /** The block of a byte: its 64-bit offset from the base with the low three bits cleared. */
  function WordOf(base: int, addr: int): int {
    (addr - base) % TWO64 / 8 * 8
  }

  /** Every eighth offset from the block of the first byte to the block of the last one. */
  function Blocks(base: int, a: Access): seq<int> {
    var first := WordOf(base, a.addr);
    var last := WordOf(base, a.addr + a.size - 1);
    if first > last then [] else seq((last - first) / 8 + 1, i => first + 8 * i)
  }

  /** The access does not start below the sandbox base and end above it. */
  predicate NoWrap(base: int, a: Access) {
    (a.addr - base) % TWO64 + a.size <= TWO64
  }

  predicate Covered(base: int, a: Access) {
    forall x :: a.addr <= x < a.addr + a.size ==> WordOf(base, x) in Blocks(base, a)
  }

  lemma OffsetAdds(base: int, a: Access, i: nat)
    requires i < a.size
    ensures NoWrap(base, a) ==> (a.addr + i - base) % TWO64 == (a.addr - base) % TWO64 + i
    ensures !NoWrap(base, a) && a.size < TWO64 && i == a.size - 1 ==>
              (a.addr + i - base) % TWO64 == (a.addr - base) % TWO64 + i - TWO64
  {
    var q, r := (a.addr - base) / TWO64, (a.addr - base) % TWO64;
    assert a.addr + i - base == q * TWO64 + (r + i);
    if r + i < TWO64 {
      ModUnique(a.addr + i - base, q, r + i);
    } else if r + i < 2 * TWO64 {
      ModUnique(a.addr + i - base, q + 1, r + i - TWO64);
    }
  }

  lemma ModUnique(x: int, q: int, r: int)
    requires x == q * TWO64 + r && 0 <= r < TWO64
    ensures x % TWO64 == r
  {
    var q', r' := x / TWO64, x % TWO64;
    assert (q - q') * TWO64 == r' - r;
  }

  lemma BlockOfByte(base: int, a: Access, x: int)
    requires NoWrap(base, a) && a.addr <= x < a.addr + a.size
    ensures WordOf(base, x) in Blocks(base, a)
  {
    var off := (a.addr - base) % TWO64;
    OffsetAdds(base, a, x - a.addr);
    OffsetAdds(base, a, a.size - 1);
    var first, last, w := off / 8 * 8, (off + a.size - 1) / 8 * 8, (off + (x - a.addr)) / 8 * 8;
    assert WordOf(base, a.addr) == first && WordOf(base, a.addr + a.size - 1) == last && WordOf(base, x) == w;
    assert first <= w <= last && first + 8 * ((w - first) / 8) == w;
    assert Blocks(base, a)[(w - first) / 8] == w;
  }

  /** The tracked blocks cover the accessed bytes exactly when the access does not straddle the base;
      an access that does is tracked as touching nothing. */
  lemma BlocksCover(base: int, a: Access)
    requires 0 < a.size < 0x1_0000_0000
    ensures NoWrap(base, a) <==> Covered(base, a)
    ensures !NoWrap(base, a) ==> Blocks(base, a) == []
  {
    if NoWrap(base, a) {
      forall x | a.addr <= x < a.addr + a.size ensures WordOf(base, x) in Blocks(base, a) {
        BlockOfByte(base, a, x);
      }
    } else {
      OffsetAdds(base, a, a.size - 1);
      assert WordOf(base, a.addr) !in Blocks(base, a);
    }
  }

  /** A byte of a block that a range of offsets runs through. */
  function ByteIn(off: nat, w: int): int {
    if w <= off then 0 else w - off
  }

  lemma ByteOfBlock(off: nat, size: nat, n: nat, w: int)
    requires size > 0 && w == off / 8 * 8 + 8 * n && w <= (off + size - 1) / 8 * 8
    ensures 0 <= ByteIn(off, w) < size && (off + ByteIn(off, w)) / 8 * 8 == w
  {
    if n > 0 {
      assert w >= off && off + (w - off) == w && w / 8 * 8 == w;
    }
  }

  /** And nothing else: each tracked block holds a byte of the access. */
  lemma BlocksTouch(base: int, a: Access, w: int) returns (x: int)
    requires 0 < a.size && NoWrap(base, a) && w in Blocks(base, a)
    ensures a.addr <= x < a.addr + a.size && WordOf(base, x) == w
  {
    var off := (a.addr - base) % TWO64;
    var n :| 0 <= n < |Blocks(base, a)| && Blocks(base, a)[n] == w;
    OffsetAdds(base, a, a.size - 1);
    BlockLimits(base, a, n);
    ByteOfBlock(off, a.size, n, w);
    x := a.addr + ByteIn(off, w);
    OffsetAdds(base, a, ByteIn(off, w));
  }

  lemma BlockLimits(base: int, a: Access, n: nat)
    requires n < |Blocks(base, a)|
    ensures var first, last := WordOf(base, a.addr), WordOf(base, a.addr + a.size - 1);
            Blocks(base, a)[n] == first + 8 * n <= last
  {
    var first, last := WordOf(base, a.addr), WordOf(base, a.addr + a.size - 1);
    assert |Blocks(base, a)| == (last - first) / 8 + 1;
  }

  // ----- Dependencies -----

  function Of(d: Deps, l: Label): set<Label> {
    if l in d then d[l] else {l}
  }

  function UnionOf(d: Deps, ls: seq<Label>): (r: set<Label>)
    ensures forall i {:trigger ls[i]} :: 0 <= i < |ls| ==> Of(d, ls[i]) <= r
  {
    if ls == [] then {} else UnionOf(d, ls[..|ls| - 1]) + Of(d, ls[|ls| - 1])
  }

  /** Add the labels to every target; a target keeps its own label and its earlier ones. */
  function Spread(d: Deps, targets: seq<Label>, labels: set<Label>): (r: Deps)
    ensures forall l :: Of(r, l) == Of(d, l) + if l in targets then labels else {}
  {
    if targets == [] then d else
      var l := targets[|targets| - 1];
      var p := Spread(d, targets[..|targets| - 1], labels);
      p[l := Of(p, l) + labels]
  }

  function RegLabels(rs: seq<string>): (r: seq<Label>)
    ensures |r| == |rs| && forall i {:trigger r[i]} :: 0 <= i < |rs| ==> r[i] == RegLabel(rs[i])
  {
    seq(|rs|, i requires 0 <= i < |rs| => RegLabel(rs[i]))
  }

  function FlagLabels(fs: seq<Flag>): (r: seq<Label>)
    ensures |r| == |fs| && forall i {:trigger r[i]} :: 0 <= i < |fs| ==> r[i] == FlagLabel(fs[i])
  {
    seq(|fs|, i requires 0 <= i < |fs| => FlagLabel(fs[i]))
  }

  function WordLabels(ws: seq<int>): (r: seq<Label>)
    ensures |r| == |ws| && forall i {:trigger r[i]} :: 0 <= i < |ws| ==> r[i] == WordLabel(ws[i])
  {
    seq(|ws|, i requires 0 <= i < |ws| => WordLabel(ws[i]))
  }

  function Sources(t: Tracker): seq<Label> {
    RegLabels(t.srcRegs) + FlagLabels(t.srcFlags) + WordLabels(t.srcMems)
  }

  function Targets(t: Tracker): seq<Label> {
    RegLabels(t.destRegs) + FlagLabels(t.destFlags) + WordLabels(t.destMems)
  }

  // ----- Transitions -----

  function Initial(observed: set<Label>): Tracker {
    Tracker(false, false, [], [], [], [], [], [], [], [], map[], observed, [])
  }

  /** Propagate from the sources to the targets, then resolve the pending taints. */
  function Finalize(t: Tracker): Tracker {
    var d := Spread(t.deps, Targets(t), UnionOf(t.deps, Sources(t)));
    t.(deps := d, tainted := t.tainted + UnionOf(d, t.pending), active := false)
  }

  function Settle(t: Tracker): Tracker {
    if t.active then Finalize(t) else t
  }

  function StartInstruction(t: Tracker, i: Insn): Tracker {
    var m := FlagModes(i.operands);
    Settle(t).(active := true, controlFlow := i.controlFlow,
               srcRegs := SrcRegs(i.operands), destRegs := DestRegs(i.operands),
               srcFlags := ReadFlags(m) + UndefFlags(m), destFlags := WriteFlags(m),
               srcMems := [], destMems := [],
               addressRegs := AddressRegs(i.operands), pending := [])
  }

  function TrackAccess(t: Tracker, base: int, a: Access, isWrite: bool): Tracker {
    if isWrite then t.(destMems := t.destMems + Blocks(base, a))
    else t.(srcMems := t.srcMems + Blocks(base, a))
  }

  function TaintPc(t: Tracker): Tracker {
    if t.active && t.controlFlow then t.(pending := t.pending + [RegLabel("RIP")]) else t
  }

  function TaintAddress(t: Tracker): Tracker {
    t.(pending := t.pending + RegLabels(t.addressRegs))
  }

  function TaintLoad(t: Tracker): Tracker {
    t.(pending := t.pending + WordLabels(t.srcMems))
  }

  function TakeCheckpoint(t: Tracker): Tracker {
    var s := Settle(t);
    s.(checkpoints := s.checkpoints + [s.deps])
  }

  function RestoreCheckpoint(t: Tracker): Tracker
    requires t.checkpoints != []
  {
    var s := Settle(t);
    var n := |s.checkpoints| - 1;
    s.(deps := s.checkpoints[n], checkpoints := s.checkpoints[..n])
  }

  // ----- The tracker beside the machine -----

  function TrackLoads(k: Contract, t: Tracker, loads: seq<Access>): Tracker {
    if loads == [] then t else
      var n := |loads| - 1;
      var p := TrackAccess(TrackLoads(k, t, loads[..n]), k.base, loads[n], false);
      if k.observation.Arch? then TaintAddress(TaintAddress(TaintLoad(p))) else TaintAddress(p)
  }

  function TrackStores(k: Contract, t: Tracker, stores: seq<Access>): Tracker {
    if stores == [] then t else
      var n := |stores| - 1;
      var p := TrackAccess(TrackStores(k, t, stores[..n]), k.base, stores[n], true);
      if k.observation.Arch? then TaintAddress(TaintAddress(p)) else TaintAddress(p)
  }

  function TrackInstruction(k: Contract, t: Tracker, i: Insn, cpu: Cpu): Tracker {
    TrackStores(k, TrackLoads(k, t, LoadsOf(i, cpu)), StoresOf(i, cpu))
  }

  /** What one move of the driver does to the tracker. */
  function TrackStep(k: Contract, c: Config, t: Tracker): Tracker
    requires ValidProgram(k) && WellStacked(c) && |t.checkpoints| == |c.saved|
  {
    if Running(k, c) then
      var i := k.prog[c.cpu.pc];
      var o := Observe(k, c);
      var t1 := TaintPc(StartInstruction(t, i));
      if Mispredicts(k, o) then TakeCheckpoint(t1) else
        var h := BypassHook(k, o);
        var t2 := if Bypasses(k, o) then TakeCheckpoint(t1) else t1;
        if h.stopped then t2 else TrackInstruction(k, t2, i, h.cpu)
    else if c.saved != [] then RestoreCheckpoint(t)
    else t
  }

  /** How many checkpoints there are after a move. */
  function DepthAfter(k: Contract, c: Config): nat
    requires ValidProgram(k)
  {
    if Running(k, c) then
      |c.saved| + if Mispredicts(k, Observe(k, c)) || Bypasses(k, Observe(k, c)) then 1 else 0
    else if c.saved != [] then |c.saved| - 1 else 0
  }

  lemma ModelDepth(k: Contract, c: Config)
    requires ValidProgram(k) && WellStacked(c)
    ensures |Step(k, c).saved| == DepthAfter(k, c)
  {
    if Running(k, c) && !Mispredicts(k, Observe(k, c)) {
      ExecuteFrame(k, BypassHook(k, Observe(k, c)));
    }
  }

  lemma TrackInstructionFrame(k: Contract, t: Tracker, i: Insn, cpu: Cpu)
    ensures var r := TrackInstruction(k, t, i, cpu);
            r.checkpoints == t.checkpoints && r.tainted == t.tainted && r.deps == t.deps && r.active == t.active
  {
    TrackLoadsFrame(k, t, LoadsOf(i, cpu));
    TrackStoresFrame(k, TrackLoads(k, t, LoadsOf(i, cpu)), StoresOf(i, cpu));
  }

  /** Starting an instruction and observing its PC only settles the instruction before it. */
  lemma StartFrame(t: Tracker, i: Insn)
    ensures var r := TaintPc(StartInstruction(t, i));
            r.checkpoints == t.checkpoints && r.tainted == Settle(t).tainted && r.deps == Settle(t).deps && r.active
  {
  }

  lemma TrackDepth(k: Contract, c: Config, t: Tracker)
    requires ValidProgram(k) && WellStacked(c) && |t.checkpoints| == |c.saved|
    ensures |TrackStep(k, c, t).checkpoints| == DepthAfter(k, c)
  {
    if Running(k, c) {
      var i := k.prog[c.cpu.pc];
      var t1 := TaintPc(StartInstruction(t, i));
      StartFrame(t, i);
      if !Mispredicts(k, Observe(k, c)) {
        var t2 := if Bypasses(k, Observe(k, c)) then TakeCheckpoint(t1) else t1;
        TrackInstructionFrame(k, t2, i, BypassHook(k, Observe(k, c)).cpu);
      }
    }
  }

  /** The tracker's checkpoint stack is as deep as the model's, under every contract. */
  lemma TrackerDepth(k: Contract, c: Config, t: Tracker)
    requires ValidProgram(k) && WellStacked(c) && |t.checkpoints| == |c.saved|
    ensures |TrackStep(k, c, t).checkpoints| == |Step(k, c).saved|
  {
    ModelDepth(k, c);
    TrackDepth(k, c, t);
  }

  function TrackRun(k: Contract, c: Config, t: Tracker, n: nat): (r: Tracker)
    requires ValidProgram(k) && WellStacked(c) && |t.checkpoints| == |c.saved|
    ensures |r.checkpoints| == |Run(k, c, n).saved|
    decreases n
  {
    if n == 0 then t else
      TrackerDepth(k, c, t);
      TrackRun(k, Step(k, c), TrackStep(k, c, t), n - 1)
  }

  lemma TrackLoadsFrame(k: Contract, t: Tracker, loads: seq<Access>)
    ensures var r := TrackLoads(k, t, loads); r == t.(srcMems := r.srcMems, pending := r.pending)
  {
    if loads != [] {
      TrackLoadsFrame(k, t, loads[..|loads| - 1]);
    }
  }

  lemma TrackStoresFrame(k: Contract, t: Tracker, stores: seq<Access>)
    ensures var r := TrackStores(k, t, stores); r == t.(destMems := r.destMems, pending := r.pending)
  {
    if stores != [] {
      TrackStoresFrame(k, t, stores[..|stores| - 1]);
    }
  }

  // ----- Taints as positions in the input array -----

  /** The word of the input that initialises a location; -1 for state that is no part of the input. */
  function InputOffset(l: Label, registerStart: nat): int {
    match l
    case WordLabel(o) => o / 8
    case FlagLabel(_) => registerStart + 6
    case RegLabel(r) =>
      if r == "A" then registerStart
      else if r == "B" then registerStart + 1
      else if r == "C" then registerStart + 2
      else if r == "D" then registerStart + 3
      else if r == "SI" then registerStart + 4
      else if r == "DI" then registerStart + 5
      else if r == "FLAGS" then registerStart + 6
      else -1
  }

  /** The registers that an input initialises, in the order of its words from the register start; the word of the
      flags follows. */
  const INPUT_REGISTERS: seq<string> := ["A", "B", "C", "D", "SI", "DI"]

  /** Word j of the input initialises the location: the words of the sandbox in order, then the registers. */
  predicate StandsFor(l: Label, registerStart: nat, j: nat) {
    match l
    case WordLabel(o) => 8 * j <= o < 8 * j + 8
    case FlagLabel(_) => j == registerStart + 6
    case RegLabel(r) =>
      || (registerStart <= j < registerStart + 6 && INPUT_REGISTERS[j - registerStart] == r)
      || (r == "FLAGS" && j == registerStart + 6)
  }

  lemma OffsetStands(l: Label, registerStart: nat, j: nat)
    ensures InputOffset(l, registerStart) == j <==> StandsFor(l, registerStart, j)
  {
    if l.RegLabel? && registerStart <= j < registerStart + 6 {
      assert j - registerStart in {0, 1, 2, 3, 4, 5};
    }
  }

  predicate IsTainted(tainted: set<Label>, registerStart: nat, j: nat) {
    exists l :: l in tainted && InputOffset(l, registerStart) == j
  }

  /** A word is tainted exactly when it initialises the location of a tainted label. */
  lemma TaintedStands(tainted: set<Label>, registerStart: nat, j: nat)
    ensures IsTainted(tainted, registerStart, j) <==> exists l :: l in tainted && StandsFor(l, registerStart, j)
  {
    if IsTainted(tainted, registerStart, j) {
      var l :| l in tainted && InputOffset(l, registerStart) == j;
      OffsetStands(l, registerStart, j);
    }
    if l :| l in tainted && StandsFor(l, registerStart, j) {
      OffsetStands(l, registerStart, j);
    }
  }

  function GetTaint(t: Tracker, registerStart: nat, size: nat): (r: seq<bool>)
    ensures |r| == size && forall j :: 0 <= j < size ==> r[j] == IsTainted(Settle(t).tainted, registerStart, j)
  {
    seq(size, j requires 0 <= j < size => IsTainted(Settle(t).tainted, registerStart, j))
  }
}

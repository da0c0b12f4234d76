/** The speculative contracts: checkpoints, per-level undo logs, the speculation window, the nesting
    bound and the driver that rolls back until no speculation is left, as a step function over whole
    configurations. */
module Speculation {
  import opened Machine

  datatype Execution = Seq | Cond | Bpas
  datatype Observation = Ct | Ctr | Arch

  /** A loaded test case and the contract to run it under; `base` is the sandbox base address. */
  datatype Contract = Contract(prog: map<int, Insn>, execution: Execution, observation: Observation,
                               nesting: nat, window: nat, base: int)

  /** Undo record: these bytes were at this address. */
  datatype Undo = Undo(addr: int, bytes: seq<int>)

  /** A checkpoint. `mem` is a history variable: the memory when the checkpoint was taken. No
      transition reads it; the tool keeps only the undo log. */
  datatype Saved = Saved(next: int, regs: RegFile, flags: FlagFile, window: nat, mem: Mem)

  /** The latest store, kept for a bypass: the bytes it replaced and the bytes it wrote. */
  datatype LastStore = NoStore | LastStore(addr: int, before: seq<int>, after: seq<int>)

  datatype TracedAccess = TracedAccess(addr: int, value: int, isStore: bool)
  datatype Traced = Traced(pc: int, accesses: seq<TracedAccess>)

  datatype Config = Config(
    cpu: Cpu,
    window: nat,
    inSpec: bool,
    saved: seq<Saved>,
    logs: seq<seq<Undo>>,
    last: LastStore,
    stopped: bool,
    trace: seq<int>,
    exec: seq<Traced>)

  ghost predicate ValidProgram(k: Contract) {
    forall pc :: pc in k.prog ==> ValidEncoding(k.prog[pc].code)
  }

  predicate IsFence(i: Insn) {
    i.name == "LFENCE" || i.name == "MFENCE"
  }

  /** CALL instructions, whose stores are never bypassed. */
  predicate IsCall(i: Insn)
    requires i.code != []
  {
    i.code[0] in {0xE8, 0xFF, 0x9A}
  }

  /** The stacks have equal depth, and the mode flag says whether there is a checkpoint. */
  predicate WellStacked(c: Config) {
    |c.saved| == |c.logs| && (c.inSpec <==> c.saved != [])
  }

  // ----- Checkpoint and rollback -----

  function Checkpoint(c: Config, next: int): (r: Config)
    requires WellStacked(c)
    ensures WellStacked(r)
  {
    c.(saved := c.saved + [Saved(next, c.cpu.regs, c.cpu.flags, c.window, c.cpu.mem)],
       logs := c.logs + [[]],
       inSpec := true)
  }

  /** Undo records are applied from the newest to the oldest. */
  function UndoLog(log: seq<Undo>, m: Mem): Mem {
    if log == [] then m else
      var u := log[|log| - 1];
      UndoLog(log[..|log| - 1], WriteBytes(m, u.addr, u.bytes))
  }

  function Rollback(c: Config): (r: Config)
    requires WellStacked(c) && c.saved != []
    ensures WellStacked(r)
  {
    var d := |c.saved| - 1;
    var s := c.saved[d];
    c.(cpu := Cpu(s.next, s.regs, s.flags, UndoLog(c.logs[d], c.cpu.mem)),
       window := s.window,
       inSpec := if c.saved[..d] == [] then false else c.inSpec,
       saved := c.saved[..d],
       logs := c.logs[..d],
       last := NoStore,
       stopped := false)
  }

  // ----- Memory hooks -----

  /** The arch tracer exposes a loaded value and then reports the address twice. */
  function LoadObservation(o: Observation, m: Mem, a: Access): seq<int> {
    if o.Arch? then [LittleEndian(ReadBytes(m, a.addr, a.size)), a.addr, a.addr] else [a.addr]
  }

  function StoreObservation(o: Observation, a: Access): seq<int> {
    if o.Arch? then [a.addr, a.addr] else [a.addr]
  }

  function AppendAccess(exec: seq<Traced>, a: TracedAccess): (r: seq<Traced>)
    ensures |r| == |exec|
  {
    if exec == [] then [] else
      var n := |exec| - 1;
      exec[n := exec[n].(accesses := exec[n].accesses + [a])]
  }

  /** Loads do not change memory, so all of them read the memory before the instruction. */
  function LoadHooks(k: Contract, c: Config, loads: seq<Access>): Config {
    if loads == [] then c else
      var n := |loads| - 1;
      var p := LoadHooks(k, c, loads[..n]);
      var value := LittleEndian(ReadBytes(c.cpu.mem, loads[n].addr, loads[n].size));
      p.(trace := p.trace + LoadObservation(k.observation, c.cpu.mem, loads[n]),
         exec := if p.inSpec then p.exec
                 else AppendAccess(p.exec, TracedAccess(loads[n].addr, value, false)))
  }

  /** One store: log the eight bytes at the address, observe, remember the store, write. */
  function StoreHook(k: Contract, c: Config, a: Access, bytes: seq<int>, call: bool): Config {
    var m := c.cpu.mem;
    var d := |c.logs| - 1;
    c.(cpu := c.cpu.(mem := WriteBytes(m, a.addr, bytes)),
       logs := if c.logs == [] then [] else c.logs[d := c.logs[d] + [Undo(a.addr, ReadBytes(m, a.addr, 8))]],
       trace := c.trace + StoreObservation(k.observation, a),
       exec := if c.inSpec then c.exec
               else AppendAccess(c.exec, TracedAccess(a.addr, LittleEndian(bytes), true)),
       last := if k.execution.Bpas? && !call then LastStore(a.addr, ReadBytes(m, a.addr, a.size), bytes)
               else c.last)
  }

  function StoreHooks(k: Contract, c: Config, i: Insn, v: View, stores: seq<Access>): Config
    requires i.code != []
  {
    if stores == [] then c else
      var n := |stores| - 1;
      StoreHook(k, StoreHooks(k, c, i, v, stores[..n]), stores[n],
                StoreBytes(i, v, n, stores[n].size), IsCall(i))
  }

  // ----- The instruction hook -----

  /** Count the instruction against the window, stop on a fence or an expired window, observe the PC. */
  function Observe(k: Contract, c: Config): Config
    requires c.cpu.pc in k.prog
  {
    var w := if c.inSpec then c.window + 1 else c.window;
    c.(window := w,
       stopped := c.inSpec && (IsFence(k.prog[c.cpu.pc]) || w > k.window),
       trace := c.trace + [c.cpu.pc],
       exec := if c.inSpec then c.exec else c.exec + [Traced(c.cpu.pc, [])])
  }

  predicate Mispredicts(k: Contract, c: Config)
    requires ValidProgram(k) && c.cpu.pc in k.prog
  {
    && k.execution.Cond?
    && |c.saved| < k.nesting
    && DecodeTarget(k.prog[c.cpu.pc].code) != 0
  }

  /** Checkpoint at the successor the decoder predicts, and continue at the other one. */
  function Mispredict(k: Contract, c: Config): (r: Config)
    requires ValidProgram(k) && c.cpu.pc in k.prog && WellStacked(c)
    ensures WellStacked(r)
  {
    var code := k.prog[c.cpu.pc].code;
    var rcx := c.cpu.regs["C"];
    var jumps := DecodeWillJump(code, c.cpu.flags, rcx);
    var fall, target := c.cpu.pc + |code|, c.cpu.pc + |code| + DecodeTarget(code);
    var c1 := if DecodeIsLoop(code) then c.(cpu := c.cpu.(regs := c.cpu.regs["C" := Decrement(rcx)])) else c;
    var c2 := Checkpoint(c1, if jumps then target else fall);
    c2.(cpu := c2.cpu.(pc := if jumps then fall else target))
  }

  predicate Bypasses(k: Contract, c: Config) {
    k.execution.Bpas? && |c.saved| < k.nesting && c.last.LastStore? && c.last.addr != 0
  }

  /** Checkpoint at the current instruction and cancel the latest store, logging what it wrote. */
  function Bypass(c: Config): (r: Config)
    requires WellStacked(c) && c.last.LastStore?
    ensures WellStacked(r)
  {
    var c1 := Checkpoint(c, c.cpu.pc);
    var d := |c1.logs| - 1;
    c1.(cpu := c1.cpu.(mem := WriteBytes(c1.cpu.mem, c.last.addr, c.last.before)),
        logs := c1.logs[d := c1.logs[d] + [Undo(c.last.addr, c.last.after)]])
  }

  /** The store-bypass hook; below the nesting bound it always forgets the latest store. */
  function BypassHook(k: Contract, c: Config): (r: Config)
    requires WellStacked(c)
    ensures WellStacked(r)
  {
    if !k.execution.Bpas? || |c.saved| >= k.nesting then c
    else (if Bypasses(k, c) then Bypass(c) else c).(last := NoStore)
  }

  /** Run the instruction itself, with its memory hooks. */
  function Execute(k: Contract, c: Config): (r: Config)
    requires ValidProgram(k) && c.cpu.pc in k.prog
  {
    var i := k.prog[c.cpu.pc];
    var c1 := LoadHooks(k, c, LoadsOf(i, c.cpu));
    var c2 := StoreHooks(k, c1, i, ViewOf(i, c.cpu), StoresOf(i, c.cpu));
    c2.(cpu := Exec(i, c.cpu).(mem := c2.cpu.mem))
  }

  // ----- The driver -----

  /** The emulator stops at a stop request or at an address that holds no instruction. */
  predicate Running(k: Contract, c: Config) {
    !c.stopped && c.cpu.pc in k.prog
  }

  predicate Done(k: Contract, c: Config) {
    !Running(k, c) && c.saved == []
  }

  function Advance(k: Contract, c: Config): Config
    requires ValidProgram(k) && WellStacked(c) && c.cpu.pc in k.prog
  {
    var o := Observe(k, c);
    if Mispredicts(k, o) then Mispredict(k, o) else
      var h := BypassHook(k, o);
      if h.stopped then h else Execute(k, h)
  }

  /** One move of the driver: an instruction, a rollback, or nothing once the run is complete. */
  function Step(k: Contract, c: Config): (r: Config)
    requires ValidProgram(k) && WellStacked(c)
    ensures WellStacked(r)
  {
    if Running(k, c) then
      HooksKeepStacks(k, c);
      Advance(k, c)
    else if c.saved != [] then Rollback(c)
    else c
  }

  function Run(k: Contract, c: Config, n: nat): (r: Config)
    requires ValidProgram(k) && WellStacked(c)
    ensures WellStacked(r)
    decreases n
  {
    if n == 0 then c else Run(k, Step(k, c), n - 1)
  }

  function Start(cpu: Cpu, trace: seq<int>): (r: Config)
    ensures WellStacked(r)
  {
    Config(cpu, 0, false, [], [], NoStore, false, trace, [])
  }

  // ----- What the hooks leave alone -----

  lemma LoadHooksFrame(k: Contract, c: Config, loads: seq<Access>)
    ensures var r := LoadHooks(k, c, loads);
            r == c.(trace := r.trace, exec := r.exec) && |r.exec| == |c.exec|
            && (c.inSpec ==> r.exec == c.exec)
  {
    if loads != [] {
      LoadHooksFrame(k, c, loads[..|loads| - 1]);
    }
  }

  lemma StoreHooksFrame(k: Contract, c: Config, i: Insn, v: View, stores: seq<Access>)
    requires i.code != []
    ensures var r := StoreHooks(k, c, i, v, stores);
            && r == c.(cpu := c.cpu.(mem := r.cpu.mem), logs := r.logs, last := r.last,
                       trace := r.trace, exec := r.exec)
            && r.cpu.mem == DoStores(i, v, c.cpu.mem, stores)
            && |r.logs| == |c.logs| && |r.exec| == |c.exec|
            && (c.inSpec ==> r.exec == c.exec)
  {
    if stores != [] {
      StoreHooksFrame(k, c, i, v, stores[..|stores| - 1]);
    }
  }

  /** Executing an instruction with its hooks has the plain effect on the machine. */
  lemma ExecuteFrame(k: Contract, c: Config)
    requires ValidProgram(k) && c.cpu.pc in k.prog
    ensures var r := Execute(k, c);
            && r == c.(cpu := Exec(k.prog[c.cpu.pc], c.cpu), logs := r.logs, last := r.last,
                       trace := r.trace, exec := r.exec)
            && |r.logs| == |c.logs| && |r.exec| == |c.exec|
            && (c.inSpec ==> r.exec == c.exec)
  {
    var i := k.prog[c.cpu.pc];
    LoadHooksFrame(k, c, LoadsOf(i, c.cpu));
    StoreHooksFrame(k, LoadHooks(k, c, LoadsOf(i, c.cpu)), i, ViewOf(i, c.cpu), StoresOf(i, c.cpu));
  }

  lemma HooksKeepStacks(k: Contract, c: Config)
    requires ValidProgram(k) && WellStacked(c) && c.cpu.pc in k.prog
    ensures WellStacked(Advance(k, c))
  {
    var h := BypassHook(k, Observe(k, c));
    ExecuteFrame(k, h);
  }
}

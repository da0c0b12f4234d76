/** The speculative model as an object: the hooks that the emulator calls, checkpoint and rollback, and
    the driver loop, each proved against the step function on configurations. */
module SpecModel {
  import opened Machine
  import opened Speculation
  import opened Taint
  import opened TaintTracking

  class Model {
    const k: Contract
    const tracker: TaintTracker
    var cpu: Cpu
    var window: nat
    var inSpec: bool
    var saved: seq<Saved>
    var logs: seq<seq<Undo>>
    var last: LastStore
    var stopped: bool
    var trace: seq<int>
    var exec: seq<Traced>

    ghost function State(): Config
      reads this
    {
      Config(cpu, window, inSpec, saved, logs, last, stopped, trace, exec)
    }

    ghost predicate Valid()
      reads this, tracker
    {
      ValidProgram(k) && WellStacked(State()) && |tracker.checkpoints| == |saved|
    }

    constructor (k: Contract, cpu: Cpu, trace: seq<int>, observed: set<Label>)
      requires ValidProgram(k)
      ensures Valid() && fresh(tracker) && this.k == k
      ensures State() == Start(cpu, trace) && tracker.State() == Initial(observed)
    {
      this.k, this.cpu, this.trace := k, cpu, trace;
      window, inSpec, saved, logs, last, stopped, exec := 0, false, [], [], NoStore, false, [];
      tracker := new TaintTracker(observed);
    }

    method TakeCheckpoint(next: int)
      requires Valid()
      modifies this, tracker
      ensures Valid() && State() == Checkpoint(old(State()), next)
      ensures tracker.State() == Taint.TakeCheckpoint(old(tracker.State()))
    {
      saved := saved + [Saved(next, cpu.regs, cpu.flags, window, cpu.mem)];
      logs := logs + [[]];
      inSpec := true;
      tracker.Checkpoint();
    }

    /** Undo the changes of a level, newest first. */
    static method UndoChanges(log: seq<Undo>, start: Mem) returns (mem: Mem)
      ensures mem == UndoLog(log, start)
    {
      var changes := log;
      mem := start;
      while changes != []
        invariant UndoLog(changes, mem) == UndoLog(log, start)
        decreases |changes|
      {
        var u := changes[|changes| - 1];
        changes := changes[..|changes| - 1];
        mem := WriteBytes(mem, u.addr, u.bytes);
      }
    }

    /** Restore the top checkpoint and undo its level's changes. */
    method RestoreCheckpointed()
      requires WellStacked(State()) && saved != []
      modifies this
      ensures State() == Rollback(old(State()))
    {
      var d := |saved| - 1;
      var s := saved[d];
      var mem := UndoChanges(logs[d], cpu.mem);
      saved, logs := saved[..d], logs[..d];
      if saved == [] {
        inSpec := false;
      }
      cpu, window := Cpu(s.next, s.regs, s.flags, mem), s.window;
      last, stopped := NoStore, false;
    }

    method RollBack()
      requires Valid() && saved != []
      modifies this, tracker
      ensures Valid() && State() == Rollback(old(State()))
      ensures tracker.State() == RestoreCheckpoint(old(tracker.State()))
    {
      RestoreCheckpointed();
      tracker.Rollback();
    }

    // ----- Memory hooks -----

    method TraceLoad(a: Access)
      modifies `trace, `exec, tracker
      ensures trace == old(trace) + LoadObservation(k.observation, cpu.mem, a)
      ensures exec == if inSpec then old(exec)
                      else AppendAccess(old(exec),
                             TracedAccess(a.addr, LittleEndian(ReadBytes(cpu.mem, a.addr, a.size)), false))
      ensures tracker.State() == (var p := TrackAccess(old(tracker.State()), k.base, a, false);
                                  if k.observation.Arch? then TaintAddress(TaintAddress(TaintLoad(p)))
                                   else TaintAddress(p))
    {
      tracker.TrackMemoryAccess(k.base, a, false);
      var value := LittleEndian(ReadBytes(cpu.mem, a.addr, a.size));
      if k.observation.Arch? {
        trace := trace + [value];
        tracker.TaintMemoryLoad();
        trace := trace + [a.addr];
        tracker.TaintMemoryAccessAddress();
      }
      trace := trace + [a.addr];
      tracker.TaintMemoryAccessAddress();
      if !inSpec {
        exec := AppendAccess(exec, TracedAccess(a.addr, value, false));
      }
    }

    method ObserveStore(a: Access, value: int)
      modifies `trace, `exec, tracker
      ensures trace == old(trace) + StoreObservation(k.observation, a)
      ensures exec == if inSpec then old(exec) else AppendAccess(old(exec), TracedAccess(a.addr, value, true))
      ensures tracker.State() == (var p := TrackAccess(old(tracker.State()), k.base, a, true);
                                  if k.observation.Arch? then TaintAddress(TaintAddress(p)) else TaintAddress(p))
    {
      tracker.TrackMemoryAccess(k.base, a, true);
      if k.observation.Arch? {
        trace := trace + [a.addr];
        tracker.TaintMemoryAccessAddress();
      }
      trace := trace + [a.addr];
      tracker.TaintMemoryAccessAddress();
      if !inSpec {
        exec := AppendAccess(exec, TracedAccess(a.addr, value, true));
      }
    }

    /** In speculation, log the eight bytes that a store may overwrite. */
    method LogStore(addr: int)
      modifies `logs
      ensures logs == if old(logs) == [] then []
                      else var d := |old(logs)| - 1;
                           old(logs)[d := old(logs)[d] + [Undo(addr, ReadBytes(cpu.mem, addr, 8))]]
    {
      if logs != [] {
        var d := |logs| - 1;
        logs := logs[d := logs[d] + [Undo(addr, ReadBytes(cpu.mem, addr, 8))]];
      }
    }

    /** Remember the store for a bypass, then let it happen. */
    method WriteStore(a: Access, bytes: seq<int>, call: bool)
      modifies `cpu, `last
      ensures cpu == old(cpu).(mem := WriteBytes(old(cpu.mem), a.addr, bytes))
      ensures last == if k.execution.Bpas? && !call then
                        LastStore(a.addr, ReadBytes(old(cpu.mem), a.addr, a.size), bytes)
                      else old(last)
    {
      if k.execution.Bpas? && !call {
        last := LastStore(a.addr, ReadBytes(cpu.mem, a.addr, a.size), bytes);
      }
      cpu := cpu.(mem := WriteBytes(cpu.mem, a.addr, bytes));
    }

    method TraceStore(a: Access, bytes: seq<int>, call: bool)
      modifies `cpu, `logs, `trace, `exec, `last, tracker
      ensures State() == StoreHook(k, old(State()), a, bytes, call)
      ensures tracker.State() == (var p := TrackAccess(old(tracker.State()), k.base, a, true);
                                  if k.observation.Arch? then TaintAddress(TaintAddress(p)) else TaintAddress(p))
    {
      LogStore(a.addr);
      ObserveStore(a, LittleEndian(bytes));
      WriteStore(a, bytes, call);
    }

    method EmulateLoads(loads: seq<Access>)
      modifies `trace, `exec, tracker
      ensures State() == LoadHooks(k, old(State()), loads)
      ensures tracker.State() == TrackLoads(k, old(tracker.State()), loads)
    {
      for n := 0 to |loads|
        invariant State() == LoadHooks(k, old(State()), loads[..n])
        invariant tracker.State() == TrackLoads(k, old(tracker.State()), loads[..n])
      {
        assert loads[..n + 1][..n] == loads[..n];
        TraceLoad(loads[n]);
      }
      assert loads[..|loads|] == loads;
    }

    method EmulateStores(i: Insn, v: View, stores: seq<Access>)
      requires i.code != []
      modifies `cpu, `logs, `trace, `exec, `last, tracker
      ensures State() == StoreHooks(k, old(State()), i, v, stores)
      ensures tracker.State() == TrackStores(k, old(tracker.State()), stores)
    {
      for n := 0 to |stores|
        invariant State() == StoreHooks(k, old(State()), i, v, stores[..n])
        invariant tracker.State() == TrackStores(k, old(tracker.State()), stores[..n])
      {
        assert stores[..n + 1][..n] == stores[..n];
        TraceStore(stores[n], StoreBytes(i, v, n, stores[n].size), IsCall(i));
      }
      assert stores[..|stores|] == stores;
    }

    /** The emulator runs the instruction at the PC and calls the memory hooks on the way. */
    method Emulate()
      requires Valid() && cpu.pc in k.prog
      modifies `cpu, `logs, `trace, `exec, `last, tracker
      ensures State() == Execute(k, old(State()))
      ensures tracker.State() == TrackInstruction(k, old(tracker.State()), k.prog[old(cpu.pc)], old(cpu))
    {
      var i, before := k.prog[cpu.pc], cpu;
      EmulateLoads(LoadsOf(i, before));
      EmulateStores(i, ViewOf(i, before), StoresOf(i, before));
      cpu := Exec(i, before).(mem := cpu.mem);
    }

    // ----- The instruction hook -----

    /** Count against the window; request a stop at a fence or an expired window. */
    method CountInstruction(i: Insn)
      modifies `window, `stopped
      ensures window == if inSpec then old(window) + 1 else old(window)
      ensures stopped <==> inSpec && (IsFence(i) || window > k.window)
    {
      stopped := false;
      if inSpec {
        window := window + 1;
        if IsFence(i) {
          stopped := true;
        }
        if window > k.window {
          stopped := true;
        }
      }
    }

    method ObserveInstruction(i: Insn)
      modifies `trace, `exec, tracker
      ensures trace == old(trace) + [cpu.pc]
      ensures exec == if inSpec then old(exec) else old(exec) + [Traced(cpu.pc, [])]
      ensures tracker.State() == TaintPc(StartInstruction(old(tracker.State()), i))
      ensures tracker.checkpoints == old(tracker.checkpoints)
    {
      StartFrame(tracker.State(), i);
      tracker.StartInstruction(i);
      trace := trace + [cpu.pc];
      tracker.TaintPc();
      if !inSpec {
        exec := exec + [Traced(cpu.pc, [])];
      }
    }

    method TraceInstruction()
      requires Valid() && cpu.pc in k.prog
      modifies `window, `stopped, `trace, `exec, tracker
      ensures Valid() && State() == Observe(k, old(State()))
      ensures tracker.State() == TaintPc(StartInstruction(old(tracker.State()), k.prog[cpu.pc]))
    {
      CountInstruction(k.prog[cpu.pc]);
      ObserveInstruction(k.prog[cpu.pc]);
    }

    method SpeculateBranch()
      requires Valid() && cpu.pc in k.prog && Mispredicts(k, State())
      modifies this, tracker
      ensures Valid() && State() == Mispredict(k, old(State()))
      ensures tracker.State() == Taint.TakeCheckpoint(old(tracker.State()))
    {
      var code := k.prog[cpu.pc].code;
      var rcx := cpu.regs["C"];
      var target, jumps := DecodeTarget(code), DecodeWillJump(code, cpu.flags, rcx);
      if DecodeIsLoop(code) {
        cpu := cpu.(regs := cpu.regs["C" := Decrement(rcx)]);
      }
      var fall := cpu.pc + |code|;
      TakeCheckpoint(if jumps then fall + target else fall);
      cpu := cpu.(pc := if jumps then fall else fall + target);
    }

    method SpeculateBypass()
      requires Valid() && Bypasses(k, State())
      modifies this, tracker
      ensures Valid() && State() == Bypass(old(State()))
      ensures tracker.State() == Taint.TakeCheckpoint(old(tracker.State()))
    {
      TakeCheckpoint(cpu.pc);
      var d := |logs| - 1;
      cpu := cpu.(mem := WriteBytes(cpu.mem, last.addr, last.before));
      logs := logs[d := logs[d] + [Undo(last.addr, last.after)]];
    }

    // ----- The driver -----

    method Move()
      requires Valid() && !Done(k, State())
      modifies this, tracker
      ensures Valid()
      ensures State() == Step(k, old(State()))
      ensures tracker.State() == TrackStep(k, old(State()), old(tracker.State()))
    {
      TrackerDepth(k, State(), tracker.State());
      if !stopped && cpu.pc in k.prog {
        TraceInstruction();
        if k.execution.Cond? && |saved| < k.nesting && DecodeTarget(k.prog[cpu.pc].code) != 0 {
          SpeculateBranch();
        } else {
          if k.execution.Bpas? && |saved| < k.nesting {
            if last.LastStore? && last.addr != 0 {
              SpeculateBypass();
            }
            last := NoStore;
          }
          if !stopped {
            Emulate();
          }
        }
      } else {
        RollBack();
      }
    }

    /** Follow a run to its completion. */
    method RunTo(ghost run: seq<Moment>)
      requires Valid() && IsRun(k, run) && Done(k, run[|run| - 1].config)
      requires run[0] == Moment(State(), tracker.State())
      modifies this, tracker
      ensures Moment(State(), tracker.State()) == run[|run| - 1]
    {
      ghost var j := 0;
      while !(saved == [] && (stopped || cpu.pc !in k.prog))
        invariant Valid() && j < |run| && Moment(State(), tracker.State()) == run[j]
        decreases |run| - j
      {
        assert Follows(k, run[j], run[j + 1]);
        Move();
        j := j + 1;
      }
      DoneStays(k, run, j);
    }

    /** Run to completion, given that the run completes within `n` moves. */
    method ExecuteTestCase(ghost n: nat)
      requires Valid() && Done(k, Run(k, State(), n))
      modifies this, tracker
      ensures State() == Run(k, old(State()), n)
      ensures tracker.State() == TrackRun(k, old(State()), old(tracker.State()), n)
    {
      ghost var run := MomentsOf(k, State(), tracker.State(), n);
      RunTo(run);
    }
  }

  /** A moment of a run: the configuration and the tracker beside it. */
  datatype Moment = Moment(config: Config, tracker: Tracker)

  ghost predicate Sound(m: Moment) {
    WellStacked(m.config) && |m.tracker.checkpoints| == |m.config.saved|
  }

  ghost predicate Follows(k: Contract, m: Moment, m': Moment)
    requires ValidProgram(k) && Sound(m)
  {
    m' == Moment(Step(k, m.config), TrackStep(k, m.config, m.tracker))
  }

  ghost predicate IsRun(k: Contract, run: seq<Moment>)
    requires ValidProgram(k)
  {
    && run != []
    && (forall j {:trigger run[j]} :: 0 <= j < |run| ==> Sound(run[j]))
    && (forall j {:trigger Follows(k, run[j], run[j + 1])} :: 0 <= j < |run| - 1 ==> Follows(k, run[j], run[j + 1]))
  }

  lemma {:induction false} MomentsOf(k: Contract, c: Config, t: Tracker, n: nat) returns (run: seq<Moment>)
    requires ValidProgram(k) && WellStacked(c) && |t.checkpoints| == |c.saved|
    ensures IsRun(k, run) && |run| == n + 1 && run[0] == Moment(c, t)
    ensures run[n] == Moment(Run(k, c, n), TrackRun(k, c, t, n))
    decreases n
  {
    if n == 0 {
      run := [Moment(c, t)];
    } else {
      TrackerDepth(k, c, t);
      var rest := MomentsOf(k, Step(k, c), TrackStep(k, c, t), n - 1);
      run := [Moment(c, t)] + rest;
      PrependMoment(k, Moment(c, t), rest);
    }
  }

  lemma PrependMoment(k: Contract, m: Moment, rest: seq<Moment>)
    requires ValidProgram(k) && IsRun(k, rest) && Sound(m) && Follows(k, m, rest[0])
    ensures IsRun(k, [m] + rest)
  {
    var run := [m] + rest;
    forall j | 0 <= j < |run| - 1 ensures Follows(k, run[j], run[j + 1]) {
      if j > 0 {
        var i := j - 1;
        assert Follows(k, rest[i], rest[i + 1]);
      }
    }
  }

  lemma {:induction false} DoneStays(k: Contract, run: seq<Moment>, j: nat)
    requires ValidProgram(k) && IsRun(k, run) && j < |run| && Done(k, run[j].config)
    ensures run[|run| - 1] == run[j]
    decreases |run| - j
  {
    if j < |run| - 1 {
      assert Follows(k, run[j], run[j + 1]);
      DoneStays(k, run, j + 1);
    }
  }
}

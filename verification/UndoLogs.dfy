/** Nested undo logs: in every reachable configuration, undoing the logs from the top down to a level
    gives back the memory at that level's checkpoint. */
module UndoLogs {
  import opened Machine
  import opened Speculation

  /** The memory after undoing the logs from the top down to level `j`. */
  ghost function MemAt(logs: seq<seq<Undo>>, m: Mem, j: nat): Mem
    requires j <= |logs|
    decreases |logs| - j
  {
    if j == |logs| then m else UndoLog(logs[j], MemAt(logs, m, j + 1))
  }

  ghost predicate LogsRestore(c: Config) {
    && WellStacked(c)
    && forall j {:trigger c.saved[j]} :: 0 <= j < |c.saved| ==> MemAt(c.logs, c.cpu.mem, j) == c.saved[j].mem
  }

  /** A store that can still be bypassed is the last write to its bytes. */
  ghost predicate LatestIsFresh(k: Contract, c: Config) {
    && (!k.execution.Bpas? ==> c.last == NoStore)
    && (|c.saved| < k.nesting && c.last.LastStore? ==>
      && |c.last.before| == |c.last.after|
      && ReadBytes(c.cpu.mem, c.last.addr, |c.last.after|) == c.last.after)
  }

  ghost predicate Undoable(k: Contract, c: Config) {
    LogsRestore(c) && LatestIsFresh(k, c)
  }

  /** A log record holds eight bytes, so no store may be wider. */
  ghost predicate SmallStores(k: Contract) {
    forall pc, cpu: Cpu, n :: pc in k.prog && 0 <= n < |StoresOf(k.prog[pc], cpu)| ==>
      StoresOf(k.prog[pc], cpu)[n].size <= 8
  }

  // ----- Algebra of the logs -----

  lemma UndoNewest(log: seq<Undo>, u: Undo, m: Mem)
    ensures UndoLog(log + [u], m) == UndoLog(log, WriteBytes(m, u.addr, u.bytes))
  {
    assert (log + [u])[..|log|] == log;
  }

  lemma {:induction false} ChangeTop(logs: seq<seq<Undo>>, m: Mem, log: seq<Undo>, m': Mem, j: nat)
    requires j < |logs|
    requires UndoLog(log, m') == UndoLog(logs[|logs| - 1], m)
    ensures MemAt(logs[|logs| - 1 := log], m', j) == MemAt(logs, m, j)
    decreases |logs| - j
  {
    var logs' := logs[|logs| - 1 := log];
    if j == |logs| - 1 {
      assert MemAt(logs', m', j + 1) == m' && MemAt(logs, m, j + 1) == m;
    } else {
      ChangeTop(logs, m, log, m', j + 1);
    }
  }

  lemma {:induction false} PushEmpty(logs: seq<seq<Undo>>, m: Mem, j: nat)
    requires j <= |logs|
    ensures MemAt(logs + [[]], m, j) == MemAt(logs, m, j)
    decreases |logs| - j
  {
    if j == |logs| {
      assert MemAt(logs + [[]], m, j + 1) == m;
    } else {
      PushEmpty(logs, m, j + 1);
    }
  }

  lemma {:induction false} PopTop(logs: seq<seq<Undo>>, m: Mem, j: nat)
    requires j < |logs|
    ensures var d := |logs| - 1;
            MemAt(logs[..d], UndoLog(logs[d], m), j) == MemAt(logs, m, j)
    decreases |logs| - j
  {
    var d := |logs| - 1;
    if j == d {
      assert MemAt(logs, m, j + 1) == m;
    } else {
      PopTop(logs, m, j + 1);
    }
  }

  /** One record takes a store back exactly when the store changed nothing past its eighth byte. */
  lemma RecordUndoesStore(m: Mem, a: int, bytes: seq<int>)
    ensures WriteBytes(WriteBytes(m, a, bytes), a, ReadBytes(m, a, 8)) == m
            <==> forall i :: 8 <= i < |bytes| ==> bytes[i] == m[a + i]
  {
    var r := WriteBytes(WriteBytes(m, a, bytes), a, ReadBytes(m, a, 8));
    if r == m {
      forall i | 8 <= i < |bytes| ensures bytes[i] == m[a + i] {
        assert r[a + i] == bytes[i];
      }
    }
  }

  /** Taking back a bypass gives the memory before it exactly when the pending store was the last
      write to its bytes: one left over from an earlier input is replayed into the new input. */
  lemma BypassIsUndone(c: Config)
    requires WellStacked(c) && c.last.LastStore? && |c.last.before| == |c.last.after|
    ensures Rollback(Bypass(c)).cpu.mem == c.cpu.mem
            <==> ReadBytes(c.cpu.mem, c.last.addr, |c.last.after|) == c.last.after
  {
    var m := WriteBytes(c.cpu.mem, c.last.addr, c.last.before);
    var u := Undo(c.last.addr, c.last.after);
    assert Bypass(c).logs[|c.logs|] == [] + [u];
    UndoNewest([], u, m);
    RewriteIsIdentity(c.cpu.mem, u.addr, c.last.before, u.bytes);
  }

  lemma RewriteIsIdentity(m: Mem, a: int, before: seq<int>, after: seq<int>)
    requires |before| == |after|
    ensures WriteBytes(WriteBytes(m, a, before), a, after) == m <==> ReadBytes(m, a, |after|) == after
  {
    var r := WriteBytes(WriteBytes(m, a, before), a, after);
    assert ReadBytes(r, a, |after|) == after;
    if ReadBytes(m, a, |after|) == after {
      forall x ensures r[x] == m[x] {
        if a <= x < a + |after| {
          assert ReadBytes(m, a, |after|)[x - a] == m[x];
        }
      }
    }
  }

  // ----- What every transition keeps -----

  lemma CheckpointKeepsLogs(c: Config, next: int)
    requires LogsRestore(c)
    ensures LogsRestore(Checkpoint(c, next))
  {
    forall j | 0 <= j <= |c.saved|
      ensures MemAt(c.logs + [[]], c.cpu.mem, j) == Checkpoint(c, next).saved[j].mem
    {
      PushEmpty(c.logs, c.cpu.mem, j);
    }
  }

  lemma RollbackKeepsLogs(c: Config)
    requires LogsRestore(c) && c.saved != []
    ensures LogsRestore(Rollback(c))
    ensures Rollback(c).cpu.mem == c.saved[|c.saved| - 1].mem
  {
    var d := |c.saved| - 1;
    forall j | 0 <= j < |c.saved|
      ensures MemAt(c.logs[..d], UndoLog(c.logs[d], c.cpu.mem), j) == c.saved[j].mem
    {
      PopTop(c.logs, c.cpu.mem, j);
    }
    assert MemAt(c.logs[..d], UndoLog(c.logs[d], c.cpu.mem), d) == UndoLog(c.logs[d], c.cpu.mem);
  }

  /** Writing while logging enough to take the write back leaves every level's restored memory. */
  lemma LoggedWriteKeepsLogs(c: Config, u: Undo, m: Mem)
    requires LogsRestore(c) && WriteBytes(m, u.addr, u.bytes) == c.cpu.mem
    ensures var d := |c.logs| - 1;
            c.logs == [] || LogsRestore(c.(cpu := c.cpu.(mem := m), logs := c.logs[d := c.logs[d] + [u]]))
  {
    if c.logs != [] {
      var d := |c.logs| - 1;
      UndoNewest(c.logs[d], u, m);
      forall j | 0 <= j < |c.saved|
        ensures MemAt(c.logs[d := c.logs[d] + [u]], m, j) == c.saved[j].mem
      {
        ChangeTop(c.logs, c.cpu.mem, c.logs[d] + [u], m, j);
      }
    }
  }

  lemma StoreHookKeepsLogs(k: Contract, c: Config, a: Access, bytes: seq<int>, call: bool)
    requires LogsRestore(c) && |bytes| == a.size <= 8
    ensures LogsRestore(StoreHook(k, c, a, bytes, call))
  {
    var m := WriteBytes(c.cpu.mem, a.addr, bytes);
    var u := Undo(a.addr, ReadBytes(c.cpu.mem, a.addr, 8));
    assert WriteBytes(m, u.addr, u.bytes) == c.cpu.mem;
    LoggedWriteKeepsLogs(c, u, m);
    var d := |c.logs| - 1;
    var r := StoreHook(k, c, a, bytes, call);
    if c.logs != [] {
      var r' := c.(cpu := c.cpu.(mem := m), logs := c.logs[d := c.logs[d] + [u]]);
      assert r.logs == r'.logs && r.cpu == r'.cpu && r.saved == r'.saved;
    }
  }

  lemma {:induction false} StoreHooksKeepLogs(k: Contract, c: Config, i: Insn, v: View, stores: seq<Access>)
    requires LogsRestore(c) && i.code != []
    requires forall n :: 0 <= n < |stores| ==> stores[n].size <= 8
    ensures LogsRestore(StoreHooks(k, c, i, v, stores))
  {
    if stores != [] {
      var n := |stores| - 1;
      StoreHooksKeepLogs(k, c, i, v, stores[..n]);
      StoreHookKeepsLogs(k, StoreHooks(k, c, i, v, stores[..n]), stores[n],
                         StoreBytes(i, v, n, stores[n].size), IsCall(i));
    }
  }

  lemma StoreHooksKeepFresh(k: Contract, c: Config, i: Insn, v: View, stores: seq<Access>)
    requires i.code != []
    requires |c.saved| < k.nesting || !k.execution.Bpas? ==> c.last == NoStore
    ensures LatestIsFresh(k, StoreHooks(k, c, i, v, stores))
    ensures !k.execution.Bpas? || IsCall(i) ==> StoreHooks(k, c, i, v, stores).last == c.last
  {
    if stores != [] {
      var n := |stores| - 1;
      var c' := StoreHooks(k, c, i, v, stores[..n]);
      StoreHooksKeepFresh(k, c, i, v, stores[..n]);
      StoreHooksFrame(k, c, i, v, stores[..n]);
      ReadBack(c'.cpu.mem, stores[n].addr, StoreBytes(i, v, n, stores[n].size));
    }
  }

  lemma ReadBack(m: Mem, a: int, bytes: seq<int>)
    ensures ReadBytes(WriteBytes(m, a, bytes), a, |bytes|) == bytes
  {
  }

  lemma ExecuteKeepsLogs(k: Contract, c: Config)
    requires ValidProgram(k) && SmallStores(k) && c.cpu.pc in k.prog
    requires LogsRestore(c)
    requires |c.saved| < k.nesting || !k.execution.Bpas? ==> c.last == NoStore
    ensures Undoable(k, Execute(k, c))
  {
    var i := k.prog[c.cpu.pc];
    var loads, stores := LoadsOf(i, c.cpu), StoresOf(i, c.cpu);
    LoadHooksFrame(k, c, loads);
    var c1 := LoadHooks(k, c, loads);
    StoreHooksFrame(k, c1, i, ViewOf(i, c.cpu), stores);
    assert LogsRestore(c1);
    StoreHooksKeepLogs(k, c1, i, ViewOf(i, c.cpu), stores);
    StoreHooksKeepFresh(k, c1, i, ViewOf(i, c.cpu), stores);
    var c2 := StoreHooks(k, c1, i, ViewOf(i, c.cpu), stores);
    var r := Execute(k, c);
    assert r.cpu.mem == c2.cpu.mem && r.logs == c2.logs && r.saved == c2.saved && r.last == c2.last;
  }

  lemma BypassHookKeepsLogs(k: Contract, c: Config)
    requires Undoable(k, c)
    ensures var h := BypassHook(k, c);
            && LogsRestore(h)
            && (|h.saved| < k.nesting || !k.execution.Bpas? ==> h.last == NoStore)
  {
    if Bypasses(k, c) {
      var c1 := Checkpoint(c, c.cpu.pc);
      CheckpointKeepsLogs(c, c.cpu.pc);
      var m := WriteBytes(c.cpu.mem, c.last.addr, c.last.before);
      var u := Undo(c.last.addr, c.last.after);
      assert WriteBytes(m, u.addr, u.bytes) == c.cpu.mem;
      LoggedWriteKeepsLogs(c1, u, m);
      assert LogsRestore(Bypass(c));
    }
  }

  lemma StepKeepsLogs(k: Contract, c: Config)
    requires ValidProgram(k) && SmallStores(k) && Undoable(k, c)
    ensures Undoable(k, Step(k, c))
  {
    if Running(k, c) {
      var o := Observe(k, c);
      assert Undoable(k, o);
      if Mispredicts(k, o) {
        var code := k.prog[o.cpu.pc].code;
        var rcx := o.cpu.regs["C"];
        var o' := if DecodeIsLoop(code) then o.(cpu := o.cpu.(regs := o.cpu.regs["C" := Decrement(rcx)])) else o;
        CheckpointKeepsLogs(o', Mispredict(k, o).saved[|o.saved|].next);
      } else {
        BypassHookKeepsLogs(k, o);
        var h := BypassHook(k, o);
        if !h.stopped {
          ExecuteKeepsLogs(k, h);
        } else {
          assert LatestIsFresh(k, h);
        }
      }
    } else if c.saved != [] {
      RollbackKeepsLogs(c);
    }
  }

  lemma {:induction false} RunKeepsLogs(k: Contract, c: Config, n: nat)
    requires ValidProgram(k) && SmallStores(k) && Undoable(k, c)
    ensures Undoable(k, Run(k, c, n))
    decreases n
  {
    if n > 0 {
      StepKeepsLogs(k, c);
      RunKeepsLogs(k, Step(k, c), n - 1);
    }
  }

  /** In every configuration that a run reaches, from any start without checkpoints and without a
      pending store, undoing the logs down to a checkpoint restores its memory exactly. */
  lemma UndoLogsRestoreMemory(k: Contract, cpu: Cpu, trace: seq<int>, n: nat)
    requires ValidProgram(k) && SmallStores(k)
    ensures Undoable(k, Run(k, Start(cpu, trace), n))
  {
    RunKeepsLogs(k, Start(cpu, trace), n);
  }
}

/** Termination of the conditional-branch contract. The window alone does not bound speculation: when
    it expires on a conditional jump below the nesting bound, the hook still takes a checkpoint, and
    the rollback that follows resumes behind the jump. Such a chain only moves forward in the code. */
module Termination {
  import opened Machine
  import opened Speculation
  import opened UndoLogs
  import opened SpecRuns
  import Sets

  /** Bounds of the code, a run's nesting and window, and the length of the sequential run. */
  datatype Bounds = Bounds(lo: int, hi: int, steps: nat)

  ghost predicate Encloses(b: Bounds, k: Contract) {
    b.lo <= b.hi && forall pc :: pc in k.prog ==> b.lo <= pc < b.hi
  }

  /** How many more hooks one speculation level can see, given its window and its next address. */
  ghost function HooksLeft(k: Contract, b: Bounds, window: nat, pc: int): (r: nat)
    requires Encloses(b, k)
    ensures r <= MostHooks(k, b)
  {
    if pc !in k.prog then 0
    else if window < k.window then k.window - window + (b.hi - b.lo) + 1
    else b.hi - pc
  }

  ghost function MostHooks(k: Contract, b: Bounds): nat
    requires Encloses(b, k)
  {
    k.window + (b.hi - b.lo) + 1
  }

  /** The cost of a level with `r` hooks left and `h` nesting slots: each hook may open one level. */
  ghost function Cost(h: nat, r: nat, most: nat): nat
    decreases h, r
  {
    if r == 0 then 1
    else Cost(h, r - 1, most) + 1 + if h > 0 then Cost(h - 1, most, most) else 0
  }

  lemma {:induction false} CostGrows(h: nat, r: nat, r': nat, most: nat)
    requires r <= r'
    ensures 1 <= Cost(h, r, most) <= Cost(h, r', most)
    decreases r'
  {
    if r < r' {
      CostGrows(h, r, r' - 1, most);
    } else if r > 0 {
      CostGrows(h, r - 1, r - 1, most);
    }
  }

  /** Spending one hook, and perhaps opening a level, leaves less. */
  lemma CostFalls(h: nat, r: nat, r': nat, child: nat, most: nat)
    requires r' < r && child <= most
    ensures Cost(h, r', most) < Cost(h, r, most)
    ensures h > 0 ==> Cost(h, r', most) + Cost(h - 1, child, most) < Cost(h, r, most)
  {
    CostGrows(h, r', r - 1, most);
    if h > 0 {
      CostGrows(h - 1, child, most, most);
    }
  }

  // ----- The measure of a configuration -----

  ghost function Remaining(b: Bounds, exec: seq<Traced>): nat {
    if |exec| <= b.steps then b.steps - |exec| else 0
  }

  /** Level 0 is the architectural run; the other levels resume at their checkpoints. */
  ghost function LevelCost(k: Contract, b: Bounds, c: Config, j: nat): nat
    requires Encloses(b, k) && j < |c.saved| && j <= k.nesting
  {
    Cost(k.nesting - j,
         if j == 0 then Remaining(b, c.exec) else HooksLeft(k, b, c.saved[j].window, c.saved[j].next),
         MostHooks(k, b))
  }

  /** For level j, `saved[j]` is where level j resumes when level j + 1 is rolled back. */
  ghost function Below(k: Contract, b: Bounds, c: Config, n: nat): nat
    requires Encloses(b, k) && n <= |c.saved| && |c.saved| <= k.nesting
  {
    if n == 0 then 0 else Below(k, b, c, n - 1) + LevelCost(k, b, c, n - 1)
  }

  ghost function TopLeft(k: Contract, b: Bounds, c: Config): nat
    requires Encloses(b, k)
  {
    if c.saved == [] then Remaining(b, c.exec)
    else if c.stopped then 0
    else HooksLeft(k, b, c.window, c.cpu.pc)
  }

  ghost function Measure(k: Contract, b: Bounds, c: Config): nat
    requires Encloses(b, k) && |c.saved| <= k.nesting
  {
    Below(k, b, c, |c.saved|) + Cost(k.nesting - |c.saved|, TopLeft(k, b, c), MostHooks(k, b))
  }

  lemma {:induction false} BelowSame(k: Contract, b: Bounds, c: Config, c': Config, n: nat)
    requires Encloses(b, k) && n <= |c.saved| && n <= |c'.saved|
    requires |c.saved| <= k.nesting && |c'.saved| <= k.nesting
    requires c.saved[..n] == c'.saved[..n] && (n > 0 ==> c.exec == c'.exec)
    ensures Below(k, b, c, n) == Below(k, b, c', n)
  {
    if n > 0 {
      assert forall i :: 0 <= i < n ==> c.saved[..n][i] == c'.saved[..n][i];
      assert c.saved[..n - 1] == c.saved[..n][..n - 1];
      assert c'.saved[..n - 1] == c'.saved[..n][..n - 1];
      BelowSame(k, b, c, c', n - 1);
      assert c.saved[n - 1] == c.saved[..n][n - 1];
    }
  }

  // ----- Every move makes the measure smaller -----

  ghost predicate Measurable(k: Contract, b: Bounds, c: Config, s: Config) {
    && CondProgram(k) && Encloses(b, k)
    && Shadows(k, c, s) && |c.saved| <= k.nesting
    && (Running(k, c) && c.saved == [] ==> |c.exec| < b.steps)
  }

  lemma PopShrinks(k: Contract, b: Bounds, c: Config, r: Config)
    requires Encloses(b, k) && 0 < |c.saved| <= k.nesting
    requires var d := |c.saved| - 1;
             && r.saved == c.saved[..d] && r.exec == c.exec && !r.stopped
             && r.window == c.saved[d].window && r.cpu.pc == c.saved[d].next
    ensures Measure(k, b, r) < Measure(k, b, c)
  {
    var d := |c.saved| - 1;
    BelowSame(k, b, c, r, d);
    CostGrows(k.nesting - |c.saved|, 0, TopLeft(k, b, c), MostHooks(k, b));
    assert LevelCost(k, b, c, d) == Cost(k.nesting - d, TopLeft(k, b, r), MostHooks(k, b));
  }

  /** A level's hook leaves it fewer hooks: its window counts up, and past the window it moves on. */
  lemma HooksFall(k: Contract, b: Bounds, window: nat, pc: int, pc': int)
    requires Encloses(b, k) && pc in k.prog && (window < k.window || pc < pc')
    ensures HooksLeft(k, b, window + 1, pc') < HooksLeft(k, b, window, pc)
  {
  }

  /** The part of a misprediction that the measure sees. */
  lemma MispredictShape(k: Contract, c: Config)
    requires CondProgram(k) && WellStacked(c) && Running(k, c) && Mispredicts(k, Observe(k, c))
    ensures var r := Step(k, c);
            var d := |c.saved|;
            && |r.saved| == d + 1 && r.saved[..d] == c.saved
            && r.saved[d].next > c.cpu.pc
            && r.saved[d].window == (if c.saved == [] then c.window else c.window + 1)
            && |r.exec| == (if c.saved == [] then |c.exec| + 1 else |c.exec|)
            && (c.saved != [] ==> r.exec == c.exec)
  {
    Resumption(k, Observe(k, c));
  }

  lemma PushShrinks(k: Contract, b: Bounds, c: Config, r: Config)
    requires Encloses(b, k) && |c.saved| < k.nesting && c.cpu.pc in k.prog && !c.stopped
    requires var d := |c.saved|;
             && |r.saved| == d + 1 && r.saved[..d] == c.saved && r.saved[d].next > c.cpu.pc
             && (d == 0 ==> |r.exec| == |c.exec| + 1 <= b.steps)
             && (d > 0 ==> r.exec == c.exec && r.saved[d].window == c.window + 1)
    ensures Measure(k, b, r) < Measure(k, b, c)
  {
    var d := |c.saved|;
    assert c.saved == c.saved[..d];
    BelowSame(k, b, c, r, d);
    var resumed := if d == 0 then Remaining(b, r.exec) else HooksLeft(k, b, r.saved[d].window, r.saved[d].next);
    if d > 0 {
      HooksFall(k, b, c.window, c.cpu.pc, r.saved[d].next);
    }
    assert resumed < TopLeft(k, b, c);
    assert TopLeft(k, b, r) <= MostHooks(k, b);
    CostFalls(k.nesting - d, TopLeft(k, b, c), resumed, TopLeft(k, b, r), MostHooks(k, b));
    assert Below(k, b, r, d + 1) == Below(k, b, c, d) + LevelCost(k, b, r, d);
  }

  /** The part of an ordinary instruction that the measure sees. */
  lemma InstructionShape(k: Contract, c: Config)
    requires CondProgram(k) && WellStacked(c) && Running(k, c) && !Mispredicts(k, Observe(k, c))
    ensures var r := Step(k, c);
            && r.saved == c.saved
            && (c.saved == [] ==> |r.exec| == |c.exec| + 1)
            && (c.saved != [] ==> r.exec == c.exec && r.window == c.window + 1)
            && (c.saved != [] && !r.stopped ==> c.window < k.window)
  {
    var o := Observe(k, c);
    assert BypassHook(k, o) == o;
    ExecuteFrame(k, o);
  }

  lemma StayShrinks(k: Contract, b: Bounds, c: Config, r: Config)
    requires Encloses(b, k) && |c.saved| <= k.nesting && c.cpu.pc in k.prog && !c.stopped
    requires r.saved == c.saved
    requires c.saved == [] ==> |r.exec| == |c.exec| + 1 <= b.steps
    requires c.saved != [] ==> r.exec == c.exec && r.window == c.window + 1
    requires c.saved != [] && !r.stopped ==> c.window < k.window
    ensures Measure(k, b, r) < Measure(k, b, c)
  {
    BelowSame(k, b, c, r, |c.saved|);
    if c.saved != [] && !r.stopped {
      HooksFall(k, b, c.window, c.cpu.pc, r.cpu.pc);
    }
    CostFalls(k.nesting - |c.saved|, TopLeft(k, b, c), TopLeft(k, b, r), 0, MostHooks(k, b));
  }

  lemma StepShrinks(k: Contract, b: Bounds, c: Config, s: Config)
    requires Measurable(k, b, c, s) && !Done(k, c)
    ensures |Step(k, c).saved| <= k.nesting
    ensures Measure(k, b, Step(k, c)) < Measure(k, b, c)
  {
    if !Running(k, c) {
      PopShrinks(k, b, c, Rollback(c));
    } else if Mispredicts(k, Observe(k, c)) {
      MispredictShape(k, c);
      PushShrinks(k, b, c, Step(k, c));
    } else {
      InstructionShape(k, c);
      StayShrinks(k, b, c, Step(k, c));
    }
  }

  /** What the window does to a speculation level: once it has expired, the hook asks the emulator to stop.
      Where the instruction is a conditional jump below the nesting bound, that only ends the level the hook has
      just opened, and this level goes on behind the jump; otherwise this level is rolled back. */
  lemma ExpiredWindow(k: Contract, c: Config)
    requires CondProgram(k) && WellStacked(c) && Running(k, c) && c.inSpec && c.window >= k.window
    ensures var d := Step(k, c);
            var e := Step(k, d);
            && d.stopped && !e.stopped
            && (Mispredicts(k, Observe(k, c)) ==>
                  e.saved == c.saved && e.window == c.window + 1 && e.cpu == Exec(k.prog[c.cpu.pc], c.cpu))
            && (!Mispredicts(k, Observe(k, c)) ==>
                  |e.saved| == |c.saved| - 1 && e.cpu.pc == c.saved[|c.saved| - 1].next)
  {
    var o := Observe(k, c);
    if Mispredicts(k, o) {
      Resumption(k, o);
      var d := Mispredict(k, o);
      assert d.logs[|c.saved|] == [] && d.saved[..|c.saved|] == c.saved;
    } else {
      assert BypassHook(k, o) == o;
    }
  }

  // ----- The theorem -----

  lemma {:induction false} CodeIsBounded(pcs: set<int>) returns (lo: int, hi: int)
    ensures lo <= hi && forall pc :: pc in pcs ==> lo <= pc < hi
  {
    if pcs == {} {
      lo, hi := 0, 0;
    } else {
      var pc := Sets.Member(pcs);
      lo, hi := CodeIsBounded(pcs - {pc});
      assert forall x :: x in pcs ==> x == pc || x in pcs - {pc};
      lo, hi := if lo < pc then lo else pc, if hi > pc then hi else pc + 1;
    }
  }

  /** `left` counts the sequential steps to completion. */
  ghost predicate Bounded(k: Contract, b: Bounds, c: Config, s: Config, left: nat) {
    && CondProgram(k) && Encloses(b, k) && Undoable(k, c) && Shadows(k, c, s) && |c.saved| <= k.nesting
    && |c.exec| + left == b.steps
    && Done(Sequential(k), Run(Sequential(k), s, left))
  }

  lemma ArchitecturalStepsLeft(k: Contract, b: Bounds, c: Config, s: Config, left: nat)
    requires Bounded(k, b, c, s, left)
    ensures Measurable(k, b, c, s)
  {
    if Running(k, c) && c.saved == [] {
      assert Running(Sequential(k), s);
      assert left != 0;
    }
  }

  lemma SequentialLeft(k: Contract, s: Config, left: nat)
    requires ValidProgram(k) && WellStacked(s) && Running(Sequential(k), s)
    requires Done(Sequential(k), Run(Sequential(k), s, left))
    ensures left > 0 && Done(Sequential(k), Run(Sequential(k), Step(Sequential(k), s), left - 1))
  {
  }

  lemma BoundedStep(k: Contract, b: Bounds, c: Config, s: Config, left: nat) returns (s': Config, left': nat)
    requires Bounded(k, b, c, s, left)
    requires |Step(k, c).saved| <= k.nesting
    ensures Bounded(k, b, Step(k, c), s', left')
  {
    StepKeepsLogs(k, c);
    StepShadows(k, c, s);
    if Running(k, c) && c.saved == [] {
      SequentialLeft(k, s, left);
      s', left' := Step(Sequential(k), s), left - 1;
    } else {
      s', left' := s, left;
    }
  }

  lemma {:induction false} RunsToCompletion(k: Contract, b: Bounds, c: Config, s: Config, left: nat) returns (end: nat)
    requires Bounded(k, b, c, s, left)
    ensures Done(k, Run(k, c, end))
    decreases Measure(k, b, c)
  {
    if Done(k, c) {
      end := 0;
    } else {
      ArchitecturalStepsLeft(k, b, c, s, left);
      StepShrinks(k, b, c, s);
      var s', left' := BoundedStep(k, b, c, s, left);
      end := RunsToCompletion(k, b, Step(k, c), s', left');
      end := end + 1;
    }
  }

  /** Whenever the sequential run completes, so does the speculative one, whatever the nesting bound
      and the window. */
  lemma CondTerminates(k: Contract, cpu: Cpu, trace: seq<int>, steps: nat) returns (end: nat)
    requires CondProgram(k)
    requires Done(Sequential(k), Run(Sequential(k), Start(cpu, trace), steps))
    ensures Done(k, Run(k, Start(cpu, trace), end))
  {
    var lo, hi := CodeIsBounded(k.prog.Keys);
    end := RunsToCompletion(k, Bounds(lo, hi, steps), Start(cpu, trace), Start(cpu, trace), steps);
  }
}

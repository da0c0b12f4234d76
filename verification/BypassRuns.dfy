/** Whole runs of the store-bypass contract. A rollback resumes at an instruction that was already observed, so
    the execution trace repeats entries; the machine itself still follows the sequential run, and a run completes
    whenever that one does. */
module BypassRuns {
  import opened Machine
  import opened Speculation
  import opened UndoLogs
  import opened SpecRuns
  import opened Termination

  ghost predicate BypassProgram(k: Contract) {
    k.execution.Bpas? && ValidProgram(k) && SmallStores(k)
  }

  // ----- Invisibility -----

  /** The run so far, with its speculation rolled back, is at the sequential run `s`. */
  ghost predicate Follows(c: Config, s: Config) {
    && WellStacked(c) && (c.saved == [] ==> !c.stopped)
    && WellStacked(s) && s.saved == [] && !s.stopped
    && Base(c) == s.cpu
  }

  /** A move executes an instruction for good if nothing is speculative and no store is bypassed. */
  predicate Commits(k: Contract, c: Config)
    requires ValidProgram(k)
  {
    Running(k, c) && c.saved == [] && !Bypasses(k, Observe(k, c))
  }

  ghost function NextState(k: Contract, c: Config, s: Config): Config
    requires ValidProgram(k) && WellStacked(s)
  {
    if Commits(k, c) then Step(Sequential(k), s) else s
  }

  lemma SequentialStep(k: Contract, s: Config)
    requires ValidProgram(k) && WellStacked(s) && s.saved == [] && !s.stopped && s.cpu.pc in k.prog
    ensures var r := Step(Sequential(k), s);
            WellStacked(r) && r.saved == [] && !r.stopped && r.cpu == Exec(k.prog[s.cpu.pc], s.cpu)
  {
    ExecuteFrame(Sequential(k), Observe(Sequential(k), s));
  }

  /** What the hook and the instruction do to the stacks: at most one level is pushed, with the machine as
      it was before the bypass. */
  lemma HookShape(k: Contract, c: Config)
    requires BypassProgram(k) && WellStacked(c) && Running(k, c)
    ensures var o := Observe(k, c);
            var r := Step(k, c);
            && (Bypasses(k, o) ==>
                  r.saved == c.saved + [Saved(c.cpu.pc, c.cpu.regs, c.cpu.flags, o.window, c.cpu.mem)])
            && (!Bypasses(k, o) ==> r.saved == c.saved && (!o.stopped ==> r.cpu == Exec(k.prog[c.cpu.pc], c.cpu)))
            && r.window == o.window && r.stopped == o.stopped
  {
    var h := BypassHook(k, Observe(k, c));
    ExecuteFrame(k, h);
  }

  lemma StepFollows(k: Contract, c: Config, s: Config)
    requires BypassProgram(k) && LogsRestore(c) && Follows(c, s)
    ensures Follows(Step(k, c), NextState(k, c, s))
  {
    if Running(k, c) {
      HookShape(k, c);
      if Commits(k, c) {
        SequentialStep(k, s);
      }
    } else if c.saved != [] {
      RollbackKeepsLogs(c);
    }
  }

  lemma MoveFollows(k: Contract, c: Config, s: Config)
    requires BypassProgram(k) && Undoable(k, c) && Follows(c, s)
    ensures Undoable(k, Step(k, c)) && Follows(Step(k, c), NextState(k, c, s))
  {
    StepFollows(k, c, s);
    StepKeepsLogs(k, c);
  }

  lemma {:induction false} RunFollows(k: Contract, c: Config, s: Config, n: nat) returns (m: nat)
    requires BypassProgram(k) && Undoable(k, c) && Follows(c, s)
    ensures Follows(Run(k, c, n), Run(Sequential(k), s, m))
    decreases n
  {
    if n == 0 {
      m := 0;
    } else {
      MoveFollows(k, c, s);
      var rest := RunFollows(k, Step(k, c), NextState(k, c, s), n - 1);
      ExtendFollowed(k, c, s, n, rest);
      m := if Commits(k, c) then rest + 1 else rest;
    }
  }

  lemma ExtendFollowed(k: Contract, c: Config, s: Config, n: nat, m: nat)
    requires BypassProgram(k) && WellStacked(c) && WellStacked(s) && n > 0
    requires Follows(Run(k, Step(k, c), n - 1), Run(Sequential(k), NextState(k, c, s), m))
    ensures Follows(Run(k, c, n), Run(Sequential(k), s, if Commits(k, c) then m + 1 else m))
  {
  }

  /** Every completed run ends with the registers, flags and memory of the completed sequential run, for every
      nesting bound and every window. */
  lemma BypassIsInvisible(k: Contract, cpu: Cpu, trace: seq<int>, n: nat) returns (m: nat)
    requires BypassProgram(k)
    requires Done(k, Run(k, Start(cpu, trace), n))
    ensures var s := Run(Sequential(k), Start(cpu, trace), m);
            Done(Sequential(k), s) && Run(k, Start(cpu, trace), n).cpu == s.cpu
  {
    m := RunFollows(k, Start(cpu, trace), Start(cpu, trace), n);
  }

  // ----- Termination -----

  /** How many more hooks a speculation level can see: past its window a hook stops it, unless that hook
      still bypasses a store. */
  ghost function HooksAhead(k: Contract, window: nat, pending: bool): nat {
    if window < k.window then k.window - window + 2 else if pending then 2 else 1
  }

  ghost function MostAhead(k: Contract): nat {
    k.window + 2
  }

  /** The architectural level sees each of its remaining instructions at most twice. */
  ghost function ArchitecturalHooks(left: nat, pending: bool): nat {
    2 * left + if pending then 1 else 0
  }

  /** What level j costs once the levels above it are rolled back; no store is pending then. */
  ghost function ResumedCost(k: Contract, c: Config, left: nat, j: nat): nat
    requires j < |c.saved| <= k.nesting
  {
    Cost(k.nesting - j,
         if j == 0 then ArchitecturalHooks(left, false) else HooksAhead(k, c.saved[j].window, false),
         MostAhead(k))
  }

  ghost function CostBelow(k: Contract, c: Config, left: nat, n: nat): nat
    requires n <= |c.saved| <= k.nesting
  {
    if n == 0 then 0 else CostBelow(k, c, left, n - 1) + ResumedCost(k, c, left, n - 1)
  }

  ghost function HooksOnTop(k: Contract, c: Config, left: nat): nat {
    if c.saved == [] then ArchitecturalHooks(left, c.last.LastStore?)
    else if c.stopped then 0
    else HooksAhead(k, c.window, c.last.LastStore?)
  }

  ghost function RunCost(k: Contract, c: Config, left: nat): nat
    requires |c.saved| <= k.nesting
  {
    CostBelow(k, c, left, |c.saved|) + Cost(k.nesting - |c.saved|, HooksOnTop(k, c, left), MostAhead(k))
  }

  lemma {:induction false} SameBelow(k: Contract, c: Config, c': Config, left: nat, n: nat)
    requires n <= |c.saved| <= k.nesting && n <= |c'.saved| <= k.nesting
    requires forall j :: 0 <= j < n ==> c.saved[j] == c'.saved[j]
    ensures CostBelow(k, c, left, n) == CostBelow(k, c', left, n)
  {
    if n > 0 {
      SameBelow(k, c, c', left, n - 1);
    }
  }

  lemma PushCosts(k: Contract, c: Config, r: Config, left: nat)
    requires |c.saved| < k.nesting && |r.saved| == |c.saved| + 1 && !c.stopped && c.last.LastStore?
    requires forall j :: 0 <= j < |c.saved| ==> r.saved[j] == c.saved[j]
    requires c.saved != [] ==> r.saved[|c.saved|].window == c.window + 1
    ensures RunCost(k, r, left) < RunCost(k, c, left)
  {
    var d := |c.saved|;
    SameBelow(k, c, r, left, d);
    var resumed := if d == 0 then ArchitecturalHooks(left, false) else HooksAhead(k, c.window + 1, false);
    assert resumed < HooksOnTop(k, c, left) && HooksOnTop(k, r, left) <= MostAhead(k);
    CostFalls(k.nesting - d, HooksOnTop(k, c, left), resumed, HooksOnTop(k, r, left), MostAhead(k));
    assert CostBelow(k, r, left, d + 1) == CostBelow(k, r, left, d) + ResumedCost(k, r, left, d);
  }

  lemma StayCosts(k: Contract, c: Config, r: Config, left: nat, left': nat)
    requires |c.saved| <= k.nesting && r.saved == c.saved && !c.stopped
    requires if c.saved == [] then left' + 1 == left else left' == left
    requires c.saved != [] ==> r.window == c.window + 1 && (r.stopped || r.window <= k.window)
    ensures RunCost(k, r, left') < RunCost(k, c, left)
  {
    SameBelow(k, c, r, left', |c.saved|);
    CostFalls(k.nesting - |c.saved|, HooksOnTop(k, c, left), HooksOnTop(k, r, left'), 0, MostAhead(k));
  }

  lemma PopCosts(k: Contract, c: Config, left: nat)
    requires WellStacked(c) && 0 < |c.saved| <= k.nesting
    ensures RunCost(k, Rollback(c), left) < RunCost(k, c, left)
  {
    var d := |c.saved| - 1;
    SameBelow(k, c, Rollback(c), left, d);
    CostGrows(k.nesting - |c.saved|, 0, HooksOnTop(k, c, left), MostAhead(k));
    assert ResumedCost(k, c, left, d) == Cost(k.nesting - d, HooksOnTop(k, Rollback(c), left), MostAhead(k));
  }

  /** The sequential run that the configuration follows completes in `left` steps. */
  ghost predicate CompletesIn(k: Contract, c: Config, s: Config, left: nat) {
    && BypassProgram(k) && Undoable(k, c) && Follows(c, s) && |c.saved| <= k.nesting
    && Done(Sequential(k), Run(Sequential(k), s, left))
  }

  function LeftAfter(k: Contract, c: Config, left: nat): int
    requires ValidProgram(k)
  {
    if Commits(k, c) then left - 1 else left
  }

  /** Every move of an unfinished run brings it closer to its end. */
  lemma MoveCosts(k: Contract, c: Config, left: nat)
    requires BypassProgram(k) && WellStacked(c) && |c.saved| <= k.nesting && !Done(k, c)
    requires LeftAfter(k, c, left) >= 0
    ensures |Step(k, c).saved| <= k.nesting
    ensures RunCost(k, Step(k, c), LeftAfter(k, c, left)) < RunCost(k, c, left)
  {
    if !Running(k, c) {
      PopCosts(k, c, left);
    } else {
      HookShape(k, c);
      if Bypasses(k, Observe(k, c)) {
        PushCosts(k, c, Step(k, c), left);
      } else {
        StayCosts(k, c, Step(k, c), left, LeftAfter(k, c, left));
      }
    }
  }

  lemma SequentialLeftAfter(k: Contract, c: Config, s: Config, left: nat)
    requires CompletesIn(k, c, s, left)
    ensures LeftAfter(k, c, left) >= 0
    ensures Done(Sequential(k), Run(Sequential(k), NextState(k, c, s), LeftAfter(k, c, left)))
  {
    if Commits(k, c) {
      SequentialLeft(k, s, left);
    }
  }

  lemma MoveCompletes(k: Contract, c: Config, s: Config, left: nat)
    requires CompletesIn(k, c, s, left) && |Step(k, c).saved| <= k.nesting && LeftAfter(k, c, left) >= 0
    ensures CompletesIn(k, Step(k, c), NextState(k, c, s), LeftAfter(k, c, left))
  {
    SequentialLeftAfter(k, c, s, left);
    MoveFollows(k, c, s);
  }

  lemma {:induction false} BypassRunEnds(k: Contract, c: Config, s: Config, left: nat) returns (end: nat)
    requires CompletesIn(k, c, s, left)
    ensures Done(k, Run(k, c, end))
    decreases RunCost(k, c, left)
  {
    if Done(k, c) {
      end := 0;
    } else {
      SequentialLeftAfter(k, c, s, left);
      MoveCosts(k, c, left);
      MoveCompletes(k, c, s, left);
      end := BypassRunEnds(k, Step(k, c), NextState(k, c, s), LeftAfter(k, c, left));
      end := end + 1;
    }
  }

  /** Whenever the sequential run completes, so does the run with bypasses, whatever the nesting bound and the
      window. */
  lemma BypassTerminates(k: Contract, cpu: Cpu, trace: seq<int>, steps: nat) returns (end: nat)
    requires BypassProgram(k)
    requires Done(Sequential(k), Run(Sequential(k), Start(cpu, trace), steps))
    ensures Done(k, Run(k, Start(cpu, trace), end))
  {
    end := BypassRunEnds(k, Start(cpu, trace), Start(cpu, trace), steps);
  }
}

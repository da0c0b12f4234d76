/** The cycle-removing part of the LLVM sandbox pass: a restart loop replaces terminators of cyclic
    strongly connected components by branches that leave them, until the control-flow graph has no
    reachable cycle. */
module SandboxCfg {
  import Sets

  /** Each block with the successors of its terminator, in order; a return has none. */
  type Cfg = map<int, seq<int>>

  ghost predicate ValidCfg(g: Cfg) {
    forall b, s :: b in g && s in g[b] ==> s in g
  }

  predicate Edge(g: Cfg, a: int, b: int) {
    a in g && b in g[a]
  }

  // ----- Paths -----

  ghost predicate IsPath(g: Cfg, p: seq<int>, a: int, b: int) {
    && p != [] && p[0] == a && p[|p| - 1] == b
    && forall i :: 0 <= i < |p| - 1 ==> Edge(g, p[i], p[i + 1])
  }

  ghost predicate Reaches(g: Cfg, a: int, b: int) {
    exists p :: IsPath(g, p, a, b)
  }

  lemma ReachesSelf(g: Cfg, a: int)
    ensures Reaches(g, a, a)
  {
    assert IsPath(g, [a], a, a);
  }

  lemma JoinPaths(g: Cfg, p: seq<int>, q: seq<int>, a: int, b: int, c: int)
    requires IsPath(g, p, a, b) && IsPath(g, q, b, c)
    ensures IsPath(g, p + q[1..], a, c)
  {
    var r := p + q[1..];
    forall i | 0 <= i < |r| - 1 ensures Edge(g, r[i], r[i + 1]) {
      if i < |p| - 1 {
        assert r[i] == p[i] && r[i + 1] == p[i + 1];
      } else {
        assert r[i] == q[i - |p| + 1] && r[i + 1] == q[i - |p| + 2];
      }
    }
  }

  lemma ReachesTransitive(g: Cfg, a: int, b: int, c: int)
    requires Reaches(g, a, b) && Reaches(g, b, c)
    ensures Reaches(g, a, c)
  {
    var p :| IsPath(g, p, a, b);
    var q :| IsPath(g, q, b, c);
    JoinPaths(g, p, q, a, b, c);
  }

  lemma EdgeReaches(g: Cfg, a: int, b: int)
    requires Edge(g, a, b)
    ensures Reaches(g, a, b)
  {
    assert IsPath(g, [a, b], a, b);
  }

  // ----- Reachable sets -----

  function Successors(g: Cfg, s: set<int>): set<int> {
    set b, t | b in s && b in g && t in g[b] :: t
  }

  lemma ShrinkRest(g: Cfg, s: set<int>, t: set<int>)
    requires s < t <= g.Keys
    ensures |g.Keys - t| < |g.Keys - s|
  {
    assert g.Keys - t < g.Keys - s;
    Sets.SubsetSize(g.Keys - t, g.Keys - s);
  }

  /** All blocks reachable from a set: add successors until there is nothing to add. */
  function Closure(g: Cfg, s: set<int>): (r: set<int>)
    requires ValidCfg(g) && s <= g.Keys
    ensures s <= r <= g.Keys && Successors(g, r) <= r
    decreases |g.Keys - s|
  {
    var t := s + Successors(g, s);
    if t == s then s else
      ShrinkRest(g, s, t);
      Closure(g, t)
  }

  lemma {:induction false} ClosureIsReached(g: Cfg, s: set<int>, b: int)
    requires ValidCfg(g) && s <= g.Keys && b in Closure(g, s)
    ensures exists a :: a in s && Reaches(g, a, b)
    decreases |g.Keys - s|
  {
    var t := s + Successors(g, s);
    if t == s {
      ReachesSelf(g, b);
    } else {
      ShrinkRest(g, s, t);
      ClosureIsReached(g, t, b);
      var c :| c in t && Reaches(g, c, b);
      if c !in s {
        var a :| a in s && a in g && c in g[a];
        EdgeReaches(g, a, c);
        ReachesTransitive(g, a, c, b);
      }
    }
  }

  lemma {:induction false} PathStaysInClosed(g: Cfg, r: set<int>, p: seq<int>, a: int, b: int)
    requires Successors(g, r) <= r && a in r && IsPath(g, p, a, b)
    ensures b in r
    decreases |p|
  {
    if |p| > 1 {
      assert Edge(g, p[0], p[1]);
      assert p[1] in Successors(g, r);
      assert IsPath(g, p[1..], p[1], b) by {
        forall i | 0 <= i < |p[1..]| - 1 ensures Edge(g, p[1..][i], p[1..][i + 1]) {
          assert Edge(g, p[i + 1], p[i + 1 + 1]);
        }
      }
      PathStaysInClosed(g, r, p[1..], p[1], b);
    }
  }

  lemma ClosureIsReachability(g: Cfg, a: int, b: int)
    requires ValidCfg(g) && a in g
    ensures b in Closure(g, {a}) <==> Reaches(g, a, b)
  {
    if b in Closure(g, {a}) {
      ClosureIsReached(g, {a}, b);
    }
    if Reaches(g, a, b) {
      var p :| IsPath(g, p, a, b);
      PathStaysInClosed(g, Closure(g, {a}), p, a, b);
    }
  }

  // ----- Strongly connected components -----

  /** A component as a set: the blocks mutually reachable with `b`. */
  function SccOf(g: Cfg, b: int): set<int>
    requires ValidCfg(g) && b in g
  {
    set x | x in Closure(g, {b}) && b in Closure(g, {x})
  }

  lemma InScc(g: Cfg, b: int, x: int)
    requires ValidCfg(g) && b in g
    ensures x in SccOf(g, b) <==> Reaches(g, b, x) && Reaches(g, x, b)
  {
    ClosureIsReachability(g, b, x);
    if x in g {
      ClosureIsReachability(g, x, b);
    }
  }

  ghost predicate OnCycle(g: Cfg, b: int) {
    exists s :: Edge(g, b, s) && Reaches(g, s, b)
  }

  /** More than one block, or one that is its own successor. */
  predicate IsCyclic(g: Cfg, scc: set<int>, b: int) {
    |scc| > 1 || Edge(g, b, b)
  }

  lemma TailPath(g: Cfg, p: seq<int>, a: int, b: int)
    requires IsPath(g, p, a, b) && |p| > 1
    ensures Edge(g, a, p[1]) && IsPath(g, p[1..], p[1], b)
  {
    var q := p[1..];
    assert Edge(g, p[0], p[1]);
    forall i | 0 <= i < |q| - 1 ensures Edge(g, q[i], q[i + 1]) {
      assert Edge(g, p[i + 1], p[i + 1 + 1]);
    }
  }

  /** Mutually reachable blocks have an edge that stays among them. */
  lemma SuccessorInScc(g: Cfg, b: int, x: int) returns (t: int)
    requires ValidCfg(g) && b in g && OnCycle(g, b) && x in SccOf(g, b)
    ensures Edge(g, x, t) && t in SccOf(g, b)
  {
    InScc(g, b, x);
    if x == b {
      t :| Edge(g, b, t) && Reaches(g, t, b);
    } else {
      var p :| IsPath(g, p, x, b);
      TailPath(g, p, x, b);
      t := p[1];
      assert Reaches(g, t, b);
    }
    EdgeReaches(g, x, t);
    ReachesTransitive(g, b, x, t);
    InScc(g, b, t);
  }

  lemma CyclicMeansOnCycle(g: Cfg, b: int)
    requires ValidCfg(g) && b in g
    ensures IsCyclic(g, SccOf(g, b), b) <==> OnCycle(g, b)
  {
    var scc := SccOf(g, b);
    ReachesSelf(g, b);
    InScc(g, b, b);
    if Edge(g, b, b) {
      assert OnCycle(g, b);
    } else if |scc| > 1 {
      var x := OtherMember(scc, b);
      InScc(g, b, x);
      var p :| IsPath(g, p, b, x);
      TailPath(g, p, b, x);
      assert Reaches(g, p[1], x);
      ReachesTransitive(g, p[1], x, b);
      assert OnCycle(g, b);
    } else if OnCycle(g, b) {
      var t := SuccessorInScc(g, b, b);
      assert b in scc && t in scc && t != b;
      Sets.TwoMembers(scc);
    }
  }

  lemma OtherMember<T>(s: set<T>, b: T) returns (x: T)
    requires |s| > 1 && b in s
    ensures x in s && x != b
  {
    assert |s - {b}| == |s| - 1;
    x :| x in s - {b};
  }

  // ----- Return-reachability -----

  ghost predicate Returns(g: Cfg, a: int) {
    exists r :: r in g && g[r] == [] && Reaches(g, a, r)
  }

  /** Every block reachable from the entry can reach a return. */
  ghost predicate CanReturn(g: Cfg, entry: int) {
    forall b :: Reaches(g, entry, b) ==> Returns(g, b)
  }

  ghost predicate IsAcyclic(g: Cfg, entry: int) {
    forall b :: Reaches(g, entry, b) ==> !OnCycle(g, b)
  }

  lemma ReturnIsNoMember(g: Cfg, b: int, r: int)
    requires ValidCfg(g) && b in g && OnCycle(g, b) && r in g && g[r] == []
    ensures r !in SccOf(g, b)
  {
    if r in SccOf(g, b) {
      var t := SuccessorInScc(g, b, r);
    }
  }

  ghost predicate LeavesScc(g: Cfg, scc: set<int>, b: int, s: int) {
    b in scc && Edge(g, b, s) && s !in scc
  }

  /** A component whose blocks can return has an edge that leaves it. */
  lemma ExitExists(g: Cfg, b: int) returns (x: int, s: int)
    requires ValidCfg(g) && b in g && OnCycle(g, b) && Returns(g, b)
    ensures LeavesScc(g, SccOf(g, b), x, s)
  {
    var scc := SccOf(g, b);
    var r :| r in g && g[r] == [] && Reaches(g, b, r);
    ReturnIsNoMember(g, b, r);
    ReachesSelf(g, b);
    InScc(g, b, b);
    var p :| IsPath(g, p, b, r);
    var i := 0;
    while p[i + 1] in scc
      invariant 0 <= i < |p| - 1 && p[i] in scc
      decreases |p| - i
    {
      i := i + 1;
    }
    x, s := p[i], p[i + 1];
    assert Edge(g, p[i], p[i + 1]);
  }

  /** Erase the terminator of a block and branch to one of its old successors. */
  function Redirect(g: Cfg, b: int, s: int): Cfg {
    g[b := [s]]
  }

  lemma RedirectedPathIsOld(g: Cfg, b: int, s: int, p: seq<int>, x: int, y: int)
    requires Edge(g, b, s) && IsPath(Redirect(g, b, s), p, x, y)
    ensures IsPath(g, p, x, y)
  {
    forall i | 0 <= i < |p| - 1 ensures Edge(g, p[i], p[i + 1]) {
      assert Edge(Redirect(g, b, s), p[i], p[i + 1]);
    }
  }

  /** A path that meets `b` at most at its end survives. */
  lemma PathSurvives(g: Cfg, b: int, s: int, p: seq<int>, x: int, y: int)
    requires b in g && IsPath(g, p, x, y) && forall i :: 0 <= i < |p| - 1 ==> p[i] != b
    ensures IsPath(Redirect(g, b, s), p, x, y)
  {
    forall i | 0 <= i < |p| - 1 ensures Edge(Redirect(g, b, s), p[i], p[i + 1]) {
      assert Edge(g, p[i], p[i + 1]);
    }
  }

  lemma SuffixPath(g: Cfg, p: seq<int>, x: int, y: int, i: nat)
    requires IsPath(g, p, x, y) && i < |p|
    ensures IsPath(g, p[..i + 1], x, p[i]) && IsPath(g, p[i..], p[i], y)
  {
    var q, r := p[..i + 1], p[i..];
    forall j | 0 <= j < |q| - 1 ensures Edge(g, q[j], q[j + 1]) {
      assert Edge(g, p[j], p[j + 1]);
    }
    forall j | 0 <= j < |r| - 1 ensures Edge(g, r[j], r[j + 1]) {
      var m := i + j;
      assert Edge(g, p[m], p[m + 1]);
    }
  }

  lemma TargetStillReturns(g: Cfg, b: int, s: int)
    requires b in g && Returns(g, s) && !Reaches(g, s, b)
    ensures Returns(Redirect(g, b, s), s)
  {
    var r :| r in g && g[r] == [] && Reaches(g, s, r);
    var p :| IsPath(g, p, s, r);
    forall i | 0 <= i < |p| ensures p[i] != b {
      SuffixPath(g, p, s, r, i);
    }
    PathSurvives(g, b, s, p, s, r);
    assert p[|p| - 1] == r;
    assert Reaches(Redirect(g, b, s), s, r);
  }

  lemma FirstVisit(p: seq<int>, b: int) returns (i: nat)
    requires b in p
    ensures i < |p| && p[i] == b && forall j :: 0 <= j < i ==> p[j] != b
  {
    i := 0;
    while p[i] != b
      invariant i < |p| && b in p[i..] && forall j :: 0 <= j < i ==> p[j] != b
      decreases |p| - i
    {
      i := i + 1;
    }
  }

  lemma StillReturns(g: Cfg, b: int, s: int, x: int)
    requires b in g && Edge(g, b, s) && Returns(g, x) && Returns(g, s) && !Reaches(g, s, b)
    ensures Returns(Redirect(g, b, s), x)
  {
    var g' := Redirect(g, b, s);
    var r :| r in g && g[r] == [] && Reaches(g, x, r);
    var p :| IsPath(g, p, x, r);
    if b in p {
      var i := FirstVisit(p, b);
      SuffixPath(g, p, x, r, i);
      PathSurvives(g, b, s, p[..i + 1], x, b);
      assert Reaches(g', x, b);
      EdgeReaches(g', b, s);
      ReachesTransitive(g', x, b, s);
      TargetStillReturns(g, b, s);
      var r' :| r' in g' && g'[r'] == [] && Reaches(g', s, r');
      ReachesTransitive(g', x, s, r');
    } else {
      PathSurvives(g, b, s, p, x, r);
      assert p[|p| - 1] == r;
      assert Reaches(g', x, r);
    }
  }

  /** Leaving a component keeps every reachable block able to return, and reaches nothing new. */
  lemma RedirectKeepsReturns(g: Cfg, entry: int, b: int, s: int)
    requires ValidCfg(g) && Edge(g, b, s) && !Reaches(g, s, b) && Reaches(g, entry, b)
    ensures forall x :: Reaches(Redirect(g, b, s), entry, x) ==> Reaches(g, entry, x)
    ensures CanReturn(g, entry) ==> CanReturn(Redirect(g, b, s), entry)
  {
    var g' := Redirect(g, b, s);
    forall x | Reaches(g', entry, x) ensures Reaches(g, entry, x) {
      var p :| IsPath(g', p, entry, x);
      RedirectedPathIsOld(g, b, s, p, entry, x);
    }
    if CanReturn(g, entry) {
      EdgeReaches(g, b, s);
      ReachesTransitive(g, entry, b, s);
      forall x | Reaches(g', entry, x) ensures Returns(g', x) {
        StillReturns(g, b, s, x);
      }
    }
  }

  // ----- The pass -----

  /** The first edge that leaves the component, if there is one. */
  method FindCriticalEdge(g: Cfg, scc: set<int>) returns (found: bool, b: int, s: int)
    requires scc <= g.Keys
    ensures found ==> LeavesScc(g, scc, b, s)
    ensures !found ==> forall x, t :: !LeavesScc(g, scc, x, t)
  {
    found, b, s := false, 0, 0;
    var rest := scc;
    while rest != {}
      invariant rest <= scc
      invariant forall x, t :: x !in rest ==> !LeavesScc(g, scc, x, t)
      decreases |rest|
    {
      b := Sets.Pick(rest);
      for i := 0 to |g[b]|
        invariant forall j :: 0 <= j < i ==> g[b][j] in scc
      {
        s := g[b][i];
        if s !in scc {
          found := true;
          return;
        }
      }
      rest := rest - {b};
    }
  }

  /** Some cyclic component among the blocks reachable from the entry, if there is one. */
  method FindCyclicScc(g: Cfg, entry: int) returns (found: bool, b: int, scc: set<int>)
    requires ValidCfg(g) && entry in g
    ensures found ==> b in g && Reaches(g, entry, b) && OnCycle(g, b) && scc == SccOf(g, b)
    ensures !found ==> IsAcyclic(g, entry)
  {
    found, b, scc := false, entry, {};
    var rest := Closure(g, {entry});
    forall x ensures x in rest <==> Reaches(g, entry, x) {
      ClosureIsReachability(g, entry, x);
    }
    while rest != {}
      invariant rest <= g.Keys && forall x :: x in rest ==> Reaches(g, entry, x)
      invariant forall x :: Reaches(g, entry, x) && x !in rest ==> !OnCycle(g, x)
      decreases |rest|
    {
      b := Sets.Pick(rest);
      scc := SccOf(g, b);
      CyclicMeansOnCycle(g, b);
      if |scc| > 1 || b in g[b] {
        found := true;
        return;
      }
      rest := rest - {b};
    }
  }

  ghost function Branching(g: Cfg): set<int> {
    set b | b in g && |g[b]| > 1
  }

  /** Every block keeps its terminator or branches to one of its old successors. */
  ghost predicate IsPruned(g: Cfg, from: Cfg) {
    g.Keys == from.Keys && forall b :: b in g ==> g[b] == from[b] || exists s :: g[b] == [s] && s in from[b]
  }

  lemma PruneMore(g: Cfg, from: Cfg, b: int, s: int)
    requires IsPruned(g, from) && Edge(g, b, s)
    ensures IsPruned(Redirect(g, b, s), from)
  {
    var g' := Redirect(g, b, s);
    forall x | x in g' ensures g'[x] == from[x] || exists t :: g'[x] == [t] && t in from[x] {
      if x == b {
        assert g'[x] == [s] && s in from[x];
      }
    }
  }

  lemma BranchingShrinks(g: Cfg, b: int, x: int, s: int)
    requires ValidCfg(g) && b in g && OnCycle(g, b) && LeavesScc(g, SccOf(g, b), x, s)
    ensures Branching(Redirect(g, x, s)) < Branching(g)
  {
    var t := SuccessorInScc(g, b, x);
    var i :| 0 <= i < |g[x]| && g[x][i] == t;
    var j :| 0 <= j < |g[x]| && g[x][j] == s;
    assert i != j;
    assert x in Branching(g) && x !in Branching(Redirect(g, x, s));
  }

  lemma LeavingIsFinal(g: Cfg, b: int, x: int, s: int)
    requires ValidCfg(g) && b in g && LeavesScc(g, SccOf(g, b), x, s)
    ensures !Reaches(g, s, x) && Reaches(g, b, x)
  {
    InScc(g, b, x);
    InScc(g, b, s);
    EdgeReaches(g, x, s);
    ReachesTransitive(g, b, x, s);
    if Reaches(g, s, x) {
      ReachesTransitive(g, s, x, b);
    }
  }

  /** Without a reachable cycle, a walk along first successors comes to a return: it cannot come back to a block
      that it has seen. */
  lemma {:induction false} WalkReturns(g: Cfg, entry: int, seen: set<int>, b: int)
    requires ValidCfg(g) && IsAcyclic(g, entry) && b in g && Reaches(g, entry, b)
    requires seen <= g.Keys && b !in seen && forall x :: x in seen ==> Reaches(g, x, b)
    ensures Returns(g, b)
    decreases g.Keys - seen
  {
    ReachesSelf(g, b);
    if g[b] != [] {
      var t := g[b][0];
      EdgeReaches(g, b, t);
      ReachesTransitive(g, entry, b, t);
      NotSeen(g, entry, seen, b, t);
      forall x | x in seen + {b} ensures Reaches(g, x, t) {
        if x in seen {
          ReachesTransitive(g, x, b, t);
        }
      }
      WalkReturns(g, entry, seen + {b}, t);
      var r :| r in g && g[r] == [] && Reaches(g, t, r);
      ReachesTransitive(g, b, t, r);
    }
  }

  lemma NotSeen(g: Cfg, entry: int, seen: set<int>, b: int, t: int)
    requires IsAcyclic(g, entry) && Reaches(g, entry, b) && Edge(g, b, t)
    requires forall x :: x in seen ==> Reaches(g, x, b)
    ensures t !in seen + {b}
  {
    if t in seen + {b} {
      ReachesSelf(g, b);
      BackEdge(g, b, t);
    }
  }

  lemma BackEdge(g: Cfg, b: int, t: int)
    requires Edge(g, b, t) && Reaches(g, t, b)
    ensures OnCycle(g, b)
  {
  }

  lemma AcyclicReturns(g: Cfg, entry: int)
    requires ValidCfg(g) && entry in g && IsAcyclic(g, entry)
    ensures CanReturn(g, entry)
  {
    forall b | Reaches(g, entry, b) ensures Returns(g, b) {
      ClosureIsReachability(g, entry, b);
      WalkReturns(g, entry, {}, b);
    }
  }

  lemma PrunedEdge(g: Cfg, from: Cfg, a: int, b: int)
    requires IsPruned(g, from) && Edge(g, a, b)
    ensures Edge(from, a, b)
  {
  }

  lemma PrunedReaches(g: Cfg, from: Cfg, a: int, b: int)
    requires IsPruned(g, from) && Reaches(g, a, b)
    ensures Reaches(from, a, b)
  {
    var p :| IsPath(g, p, a, b);
    forall i | 0 <= i < |p| - 1 ensures Edge(from, p[i], p[i + 1]) {
      PrunedEdge(g, from, p[i], p[i + 1]);
    }
    assert IsPath(from, p, a, b);
  }

  /** A block of a cyclic component is on a cycle, in this graph and in those that it was pruned from. */
  lemma MemberWasOnCycle(g: Cfg, from: Cfg, entry: int, b: int, x: int)
    requires ValidCfg(g) && IsPruned(g, from) && b in g && Reaches(g, entry, b) && OnCycle(g, b) && x in SccOf(g, b)
    ensures Reaches(from, entry, x) && OnCycle(from, x)
  {
    InScc(g, b, x);
    var t := SuccessorInScc(g, b, x);
    InScc(g, b, t);
    ReachesTransitive(g, entry, b, x);
    ReachesTransitive(g, t, b, x);
    PrunedReaches(g, from, entry, x);
    PrunedReaches(g, from, t, x);
    PrunedEdge(g, from, x, t);
  }

  /** The terminators that a pruned graph replaces are those of reachable blocks on cycles. */
  ghost predicate PrunesCycles(g: Cfg, from: Cfg, entry: int)
    requires g.Keys == from.Keys
  {
    forall b :: b in from && g[b] != from[b] ==> Reaches(from, entry, b) && OnCycle(from, b)
  }

  lemma NothingToPrune(g: Cfg, from: Cfg, entry: int)
    requires g.Keys == from.Keys && PrunesCycles(g, from, entry) && IsAcyclic(from, entry)
    ensures g == from
  {
    assert forall b :: b in from ==> g[b] == from[b];
  }

  datatype Outcome = Impossible | Pruned(cfg: Cfg)

  /** If every reachable block can reach a return, the pass succeeds; whenever it succeeds, no reachable
      cycle is left, every reachable block can reach a return, nothing new is reachable, and only reachable
      blocks that were on a cycle have a new terminator. So a function without cycles comes back as it was. */
  method RemoveCyclesInFunction(cfg: Cfg, entry: int) returns (r: Outcome)
    requires ValidCfg(cfg) && entry in cfg
    ensures CanReturn(cfg, entry) ==> r.Pruned?
    ensures r.Pruned? ==> IsAcyclic(r.cfg, entry) && CanReturn(r.cfg, entry) && IsPruned(r.cfg, cfg)
    ensures r.Pruned? ==> forall x :: Reaches(r.cfg, entry, x) ==> Reaches(cfg, entry, x)
    ensures r.Pruned? ==>
              forall b :: b in cfg && r.cfg[b] != cfg[b] ==> Reaches(cfg, entry, b) && OnCycle(cfg, b)
    ensures IsAcyclic(cfg, entry) ==> r == Pruned(cfg)
  {
    var g := cfg;
    while true
      invariant ValidCfg(g) && entry in g && IsPruned(g, cfg)
      invariant forall x :: Reaches(g, entry, x) ==> Reaches(cfg, entry, x)
      invariant CanReturn(cfg, entry) ==> CanReturn(g, entry)
      invariant PrunesCycles(g, cfg, entry)
      decreases Branching(g)
    {
      if IsAcyclic(cfg, entry) {
        NothingToPrune(g, cfg, entry);
      }
      var found, b, scc := FindCyclicScc(g, entry);
      if !found {
        AcyclicReturns(g, entry);
        return Pruned(g);
      }
      var exits, x, s := FindCriticalEdge(g, scc);
      if !exits {
        if CanReturn(g, entry) {
          var y, t := ExitExists(g, b);
          assert false;
        }
        return Impossible;
      }
      LeavingIsFinal(g, b, x, s);
      ReachesTransitive(g, entry, b, x);
      RedirectKeepsReturns(g, entry, x, s);
      BranchingShrinks(g, b, x, s);
      PruneMore(g, cfg, x, s);
      MemberWasOnCycle(g, cfg, entry, b, x);
      g := Redirect(g, x, s);
    }
  }
}

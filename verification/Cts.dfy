/** The backward dataflow analysis of the cts tracer: which registers may reach a transmitted operand.
    The sweeps update their maps in place and detect convergence from part of the state only. */
module Cts {
  import Sets

  type Reg = int

  /** What the analysis reads of an instruction. A jump has a target, and a fall-through successor
      unless it is recognised as unconditional. `transmitted` are the registers that a branch reads
      and the base and index registers of memory operands. */
  datatype Insn = Insn(size: nat, jump: bool, target: int, fallsThrough: bool,
                       uses: set<Reg>, defs: set<Reg>, transmitted: set<Reg>)

  /** The code, the sub-registers of every register, and the addresses from high to low. */
  datatype Code = Code(insns: map<int, Insn>, sub: map<Reg, set<Reg>>, order: seq<int>)

  type Facts = map<int, set<Reg>>

  ghost predicate ValidCode(c: Code) {
    && (forall i, j :: 0 <= i < j < |c.order| ==> c.order[i] > c.order[j])
    && (forall i :: 0 <= i < |c.order| ==> c.order[i] in c.insns)
    && (forall a :: a in c.insns ==> exists i :: 0 <= i < |c.order| && c.order[i] == a)
    && (forall a :: a in c.insns ==> c.insns[a].uses <= c.sub.Keys && c.insns[a].transmitted <= c.sub.Keys)
    && (forall r :: r in c.sub ==> c.sub[r] <= c.sub.Keys)
  }

  /** The code may go on from one instruction to another: at the target of a jump, and behind every instruction but an
      unconditional jump, if there is an instruction. */
  predicate IsSuccessor(c: Code, a: int, s: int)
    requires a in c.insns
  {
    var i := c.insns[a];
    s in c.insns && ((i.jump && s == i.target) || ((!i.jump || i.fallsThrough) && s == a + i.size))
  }

  function Targets(c: Code, a: int): seq<int>
    requires a in c.insns
  {
    var i := c.insns[a];
    if i.jump then [i.target] + (if i.fallsThrough then [a + i.size] else []) else [a + i.size]
  }

  /** The successors are the targets that are addresses of instructions. */
  lemma TargetsAreSuccessors(c: Code, a: int, s: int)
    requires a in c.insns
    ensures s in Targets(c, a) && s in c.insns <==> IsSuccessor(c, a, s)
  {
  }

  /** A missing entry stands for the empty set. */
  function At(f: Facts, a: int): set<Reg> {
    if a in f then f[a] else {}
  }

  /** The transfer function: kill the writes, add the transmitted operands, and the reads if a write
      was unprotected. */
  function Transfer(i: Insn, v: set<Reg>): set<Reg> {
    (v - i.defs) + i.transmitted + if i.defs * v != {} then i.uses else {}
  }

  function Expand(c: Code, v: set<Reg>): (r: set<Reg>)
    ensures ValidCode(c) ==> r <= c.sub.Keys
  {
    set x, r | x in v && x in c.sub && r in c.sub[x] :: r
  }

  function Flow(c: Code, a: int, v: set<Reg>): set<Reg>
    requires a in c.insns
  {
    Expand(c, Transfer(c.insns[a], v))
  }

  lemma FlowGrows(c: Code, a: int, v: set<Reg>, w: set<Reg>)
    requires a in c.insns && v <= w
    ensures Flow(c, a, v) <= Flow(c, a, w)
  {
    var i := c.insns[a];
    assert i.defs * v <= i.defs * w;
    assert Transfer(i, v) <= Transfer(i, w);
  }

  /** What flows back from the successors. */
  ghost function Joined(c: Code, pre: Facts, a: int): set<Reg>
    requires a in c.insns
  {
    set s, r | s in c.insns && IsSuccessor(c, a, s) && r in At(pre, s) :: r
  }

  // ----- Solutions -----

  ghost predicate IsSolution(c: Code, pre: Facts, post: Facts) {
    forall a :: a in c.insns ==> At(post, a) == Joined(c, pre, a) && At(pre, a) == Flow(c, a, At(post, a))
  }

  /** An upper bound that the equations map into itself. */
  ghost predicate IsClosed(c: Code, pre: Facts) {
    forall a :: a in c.insns ==> Flow(c, a, Joined(c, pre, a)) <= At(pre, a)
  }

  ghost predicate Within(c: Code, f: Facts, g: Facts) {
    forall a :: a in c.insns ==> At(f, a) <= At(g, a)
  }

  lemma JoinedGrows(c: Code, pre: Facts, pre': Facts, a: int)
    requires a in c.insns && Within(c, pre, pre')
    ensures Joined(c, pre, a) <= Joined(c, pre', a)
  {
  }

  // ----- What every update keeps -----

  /** Nothing is assumed that the equations do not justify, and nothing beyond any closed bound. */
  ghost predicate Justified(c: Code, pre: Facts, post: Facts) {
    && (forall a :: a in c.insns ==> At(post, a) <= Joined(c, pre, a) && At(pre, a) <= Flow(c, a, At(post, a)))
    && (forall bound {:trigger IsClosed(c, bound)} :: IsClosed(c, bound) ==> Within(c, pre, bound))
  }

  lemma MergeKeeps(c: Code, pre: Facts, post: Facts, a: int)
    requires a in c.insns && Justified(c, pre, post)
    ensures Justified(c, pre, post[a := At(post, a) + Joined(c, pre, a)])
  {
    FlowGrows(c, a, At(post, a), At(post, a) + Joined(c, pre, a));
  }

  lemma TransferKeeps(c: Code, pre: Facts, post: Facts, a: int)
    requires a in c.insns && Justified(c, pre, post)
    ensures Justified(c, pre[a := Flow(c, a, At(post, a))], post)
    ensures Within(c, pre, pre[a := Flow(c, a, At(post, a))])
  {
    var next := pre[a := Flow(c, a, At(post, a))];
    forall b | b in c.insns ensures Joined(c, pre, b) <= Joined(c, next, b) {
      JoinedGrows(c, pre, next, b);
    }
    forall bound | IsClosed(c, bound) ensures Within(c, next, bound) {
      JoinedGrows(c, pre, bound, a);
      FlowGrows(c, a, At(post, a), Joined(c, bound, a));
    }
  }

  // ----- Derivations -----

  /** Why a register is unprotected before an instruction: one that contains it is transmitted, or
      flows through to a successor, or is used by an unprotected definition. */
  datatype Derivation =
    | Transmitted(x: Reg)
    | Survives(x: Reg, succ: int, rest: Derivation)
    | Feeds(x: Reg, def: Reg, succ: int, rest: Derivation)

  ghost predicate Derives(c: Code, d: Derivation, a: int, r: Reg)
    decreases d
  {
    && a in c.insns && d.x in c.sub && r in c.sub[d.x]
    && match d
       case Transmitted(x) => x in c.insns[a].transmitted
       case Survives(x, s, rest) => x !in c.insns[a].defs && IsSuccessor(c, a, s) && Derives(c, rest, s, x)
       case Feeds(x, def, s, rest) =>
         x in c.insns[a].uses && def in c.insns[a].defs && IsSuccessor(c, a, s) && Derives(c, rest, s, def)
  }

  ghost predicate Derivable(c: Code, a: int, r: Reg) {
    exists d :: Derives(c, d, a, r)
  }

  /** Everything derivable is in every solution. */
  lemma {:induction false} DerivedIsFound(c: Code, pre: Facts, post: Facts, d: Derivation, a: int, r: Reg)
    requires IsSolution(c, pre, post) && Derives(c, d, a, r)
    ensures r in At(pre, a)
    decreases d
  {
    var i := c.insns[a];
    match d
    case Transmitted(x) =>
      assert x in Transfer(i, At(post, a));
    case Survives(x, s, rest) =>
      DerivedIsFound(c, pre, post, rest, s, x);
      assert x in Joined(c, pre, a);
      assert x in Transfer(i, At(post, a));
    case Feeds(x, def, s, rest) =>
      DerivedIsFound(c, pre, post, rest, s, def);
      assert def in Joined(c, pre, a);
      assert def in i.defs * At(post, a);
      assert x in Transfer(i, At(post, a));
  }

  ghost function DerivableFacts(c: Code): Facts {
    map a | a in c.insns :: set r | r in c.sub && Derivable(c, a, r)
  }

  /** Where a register that flows back comes from. */
  lemma JoinedFrom(c: Code, pre: Facts, a: int, r: Reg) returns (s: int)
    requires a in c.insns && r in Joined(c, pre, a)
    ensures IsSuccessor(c, a, s) && r in At(pre, s)
  {
    s :| s in c.insns && IsSuccessor(c, a, s) && r in At(pre, s);
  }

  lemma Witness(c: Code, a: int, r: Reg) returns (d: Derivation)
    requires r in At(DerivableFacts(c), a)
    ensures Derives(c, d, a, r)
  {
    d :| Derives(c, d, a, r);
  }

  lemma StepIsDerivable(c: Code, a: int, x: Reg)
    requires ValidCode(c) && a in c.insns
    requires x in c.sub && x in Transfer(c.insns[a], Joined(c, DerivableFacts(c), a))
    ensures forall r :: r in c.sub[x] ==> Derivable(c, a, r)
  {
    var i, v := c.insns[a], Joined(c, DerivableFacts(c), a);
    var d: Derivation;
    if x in i.transmitted {
      d := Transmitted(x);
    } else if x in v && x !in i.defs {
      var s := JoinedFrom(c, DerivableFacts(c), a, x);
      var rest := Witness(c, s, x);
      d := Survives(x, s, rest);
    } else {
      var def := Sets.Member(i.defs * v);
      var s := JoinedFrom(c, DerivableFacts(c), a, def);
      var rest := Witness(c, s, def);
      d := Feeds(x, def, s, rest);
    }
    forall r | r in c.sub[x] ensures Derivable(c, a, r) {
      assert Derives(c, d, a, r);
    }
  }

  lemma DerivableIsClosed(c: Code)
    requires ValidCode(c)
    ensures IsClosed(c, DerivableFacts(c))
  {
    var f := DerivableFacts(c);
    forall a, r | a in c.insns && r in Flow(c, a, Joined(c, f, a)) ensures r in At(f, a) {
      var x :| x in Transfer(c.insns[a], Joined(c, f, a)) && x in c.sub && r in c.sub[x];
      StepIsDerivable(c, a, x);
    }
  }

  /** The least solution holds a register exactly when it has a derivation. */
  lemma LeastSolutionIsDerivable(c: Code, pre: Facts, post: Facts, a: int, r: Reg)
    requires ValidCode(c) && IsSolution(c, pre, post) && Justified(c, pre, post) && a in c.insns
    ensures r in At(pre, a) <==> Derivable(c, a, r)
  {
    if r in At(pre, a) {
      DerivableIsClosed(c);
      assert Within(c, pre, DerivableFacts(c));
    }
    if d :| Derives(c, d, a, r) {
      DerivedIsFound(c, pre, post, d, a, r);
    }
  }

  // ----- The sweeps -----

  /** The total size of the facts before the first n instructions. */
  ghost function TotalSize(c: Code, pre: Facts, n: nat): nat
    requires n <= |c.order|
  {
    if n == 0 then 0 else TotalSize(c, pre, n - 1) + |At(pre, c.order[n - 1])|
  }

  lemma {:induction false} TotalGrows(c: Code, pre: Facts, pre': Facts, n: nat)
    requires ValidCode(c) && n <= |c.order| && Within(c, pre, pre')
    ensures TotalSize(c, pre, n) <= TotalSize(c, pre', n)
    ensures (exists i :: 0 <= i < n && At(pre, c.order[i]) != At(pre', c.order[i])) ==>
              TotalSize(c, pre, n) < TotalSize(c, pre', n)
  {
    if n > 0 {
      TotalGrows(c, pre, pre', n - 1);
      Sets.SubsetSize(At(pre, c.order[n - 1]), At(pre', c.order[n - 1]));
    }
  }

  lemma OneMore(n: nat, size: nat)
    requires n > 0
    ensures (n - 1) * size + size == n * size
  {
  }

  lemma {:induction false} TotalBound(c: Code, pre: Facts, n: nat, size: nat)
    requires ValidCode(c) && n <= |c.order| && forall a :: a in c.insns ==> |At(pre, a)| <= size
    ensures TotalSize(c, pre, n) <= n * size
  {
    if n > 0 {
      TotalBound(c, pre, n - 1, size);
      OneMore(n, size);
    }
  }

  ghost predicate SameFacts(f: Facts, g: Facts) {
    forall a :: At(f, a) == At(g, a)
  }

  /** What flows back from the first n targets. */
  ghost function JoinFirst(c: Code, pre: Facts, targets: seq<int>, n: nat): set<Reg>
    requires n <= |targets|
  {
    if n == 0 then {} else
      JoinFirst(c, pre, targets, n - 1) + if targets[n - 1] in c.insns then At(pre, targets[n - 1]) else {}
  }

  lemma {:induction false} InJoinFirst(c: Code, pre: Facts, targets: seq<int>, n: nat, r: Reg)
    requires n <= |targets|
    ensures r in JoinFirst(c, pre, targets, n) <==> exists s :: s in targets[..n] && s in c.insns && r in At(pre, s)
  {
    if n > 0 {
      InJoinFirst(c, pre, targets, n - 1, r);
      assert targets[..n] == targets[..n - 1] + [targets[n - 1]];
    }
  }

  lemma JoinFirstIsJoined(c: Code, pre: Facts, a: int)
    requires a in c.insns
    ensures JoinFirst(c, pre, Targets(c, a), |Targets(c, a)|) == Joined(c, pre, a)
  {
    var targets := Targets(c, a);
    assert targets[..|targets|] == targets;
    forall r ensures r in JoinFirst(c, pre, targets, |targets|) <==> r in Joined(c, pre, a) {
      InJoinFirst(c, pre, targets, |targets|, r);
      forall s ensures s in targets && s in c.insns <==> IsSuccessor(c, a, s) {
        TargetsAreSuccessors(c, a, s);
      }
    }
  }

  class Analysis {
    const code: Code
    var pre: Facts
    var post: Facts

    ghost predicate Valid()
      reads this
    {
      && ValidCode(code)
      && pre.Keys <= code.insns.Keys && post.Keys <= code.insns.Keys
      && Justified(code, pre, post)
    }

    constructor (code: Code)
      requires ValidCode(code)
      ensures Valid() && this.code == code && pre == map[] && post == map[]
    {
      this.code := code;
      pre, post := map[], map[];
    }

    /** What the successors need; looking at their entries creates them. */
    method Join(a: int) returns (v: set<Reg>, looked: Facts)
      requires Valid() && a in code.insns
      ensures v == Joined(code, pre, a)
      ensures pre.Keys <= looked.Keys <= code.insns.Keys && SameFacts(pre, looked)
    {
      var targets := Targets(code, a);
      v, looked := {}, pre;
      for n := 0 to |targets|
        invariant v == JoinFirst(code, pre, targets, n)
        invariant pre.Keys <= looked.Keys <= code.insns.Keys && SameFacts(pre, looked)
      {
        if targets[n] in code.insns {
          v := v + At(pre, targets[n]);
          looked := looked[targets[n] := At(pre, targets[n])];
        }
      }
      JoinFirstIsJoined(code, pre, a);
    }

    method Merge(a: int)
      requires Valid() && a in code.insns
      modifies this
      ensures Valid()
      ensures post == old(post)[a := At(old(post), a) + Joined(code, old(pre), a)]
      ensures old(pre).Keys <= pre.Keys && SameFacts(old(pre), pre)
    {
      var v, looked := Join(a);
      MergeKeeps(code, pre, post, a);
      SameFactsJustified(code, pre, looked, post[a := At(post, a) + v]);
      pre, post := looked, post[a := At(post, a) + v];
    }

    method TransferAt(a: int)
      requires Valid() && a in code.insns && a in post
      modifies `pre
      ensures Valid() && pre == old(pre)[a := Flow(code, a, At(post, a))]
      ensures Within(code, old(pre), pre)
    {
      TransferKeeps(code, pre, post, a);
      pre := pre[a := Expand(code, Transfer(code.insns[a], post[a]))];
    }

    ghost predicate Complete()
      reads this
    {
      pre.Keys == post.Keys == code.insns.Keys
    }

    /** One instruction of a sweep that began with the facts `start`. */
    method Visit(n: nat, ghost start: Facts)
      requires Valid() && n < |code.order|
      requires Within(code, start, pre) && Swept(code, start, pre, post, n)
      modifies this
      ensures Valid() && Within(code, start, pre) && Swept(code, start, pre, post, n + 1)
      ensures old(pre).Keys <= pre.Keys && old(post).Keys <= post.Keys
    {
      ghost var pre0, post0 := pre, post;
      var a := code.order[n];
      Merge(a);
      ghost var pre1 := pre;
      TransferAt(a);
      Visited(code, start, pre0, post0, pre1, pre, post, n);
    }

    /** One sweep, from high addresses to low ones. The snapshot keeps the old sets before each
        instruction, but shares the sets after it with the sweep, which updates them in place: of the
        latter only new entries can show up as a change. */
    method AnalyseOnce() returns (changed: bool)
      requires Valid()
      modifies this
      ensures Valid() && Complete() && Within(code, old(pre), pre)
      ensures changed <==> pre != old(pre) || post.Keys != old(post).Keys
      ensures !changed || Forward(code) ==> IsSolution(code, pre, post)
    {
      ghost var start := pre;
      var oldPre, oldPostKeys := pre, post.Keys;
      for n := 0 to |code.order|
        invariant Valid() && Within(code, start, pre) && start.Keys <= pre.Keys && oldPostKeys <= post.Keys
        invariant Swept(code, start, pre, post, n)
      {
        Visit(n, start);
      }
      changed := oldPre != pre || oldPostKeys != post.Keys;
      SweepEnds(code, start, pre, post);
      assert forall a :: a in code.insns.Keys ==> a in pre.Keys && a in post.Keys;
    }

    /** Sweep until nothing changes; returns how many sweeps reported a change. */
    method Analyse() returns (sweeps: nat)
      requires Valid() && pre == post == map[]
      modifies this
      ensures Valid() && IsSolution(code, pre, post)
      ensures forall a, r :: a in code.insns ==> (r in At(pre, a) <==> Derivable(code, a, r))
      ensures sweeps <= 1 + |code.order| * |code.sub.Keys|
      ensures Forward(code) ==> sweeps <= 1
    {
      sweeps := 0;
      var changed := AnalyseOnce();
      while changed
        invariant Valid() && Complete()
        invariant !changed || Forward(code) ==> IsSolution(code, pre, post)
        invariant sweeps <= TotalSize(code, pre, |code.order|) + if changed then 0 else 1
        invariant Forward(code) ==> sweeps <= if changed then 0 else 1
        decreases changed, |code.order| * |code.sub.Keys| - TotalSize(code, pre, |code.order|)
      {
        ghost var before, solved := pre, IsSolution(code, pre, post);
        if solved {
          SolutionIsClosed(code, pre, post);
        }
        sweeps := sweeps + 1;
        changed := AnalyseOnce();
        SweepGrows(code, before, pre, post, changed);
      }
      FactsBounded(code, pre, post);
      forall a, r | a in code.insns ensures r in At(pre, a) <==> Derivable(code, a, r) {
        LeastSolutionIsDerivable(code, pre, post, a, r);
      }
    }
  }

  lemma SameFactsJustified(c: Code, pre: Facts, pre': Facts, post: Facts)
    requires Justified(c, pre, post) && SameFacts(pre, pre')
    ensures Justified(c, pre', post)
  {
    forall a | a in c.insns ensures Joined(c, pre, a) == Joined(c, pre', a) {
    }
  }

  /** Every edge goes to a higher address. */
  ghost predicate Forward(c: Code) {
    forall a, s :: a in c.insns && IsSuccessor(c, a, s) ==> s > a
  }

  /** The first n instructions are swept: their equations hold, for the facts at the start of the sweep
      at least, and on forward code for the facts now. */
  ghost predicate Swept(c: Code, start: Facts, pre: Facts, post: Facts, n: nat)
    requires n <= |c.order| && forall i :: 0 <= i < |c.order| ==> c.order[i] in c.insns
  {
    forall i {:trigger c.order[i]} :: 0 <= i < n ==>
      && c.order[i] in pre && c.order[i] in post
      && At(pre, c.order[i]) == Flow(c, c.order[i], At(post, c.order[i]))
      && Joined(c, start, c.order[i]) <= At(post, c.order[i])
      && (Forward(c) ==> Joined(c, pre, c.order[i]) <= At(post, c.order[i]))
  }

  lemma JoinedUnaffected(c: Code, pre: Facts, pre': Facts, a: int, b: int)
    requires a in c.insns && !IsSuccessor(c, a, b)
    requires forall x :: x != b ==> At(pre, x) == At(pre', x)
    ensures Joined(c, pre, a) == Joined(c, pre', a)
  {
  }

  lemma SweptNext(c: Code, start: Facts, pre: Facts, post: Facts, pre': Facts, post': Facts, n: nat)
    requires ValidCode(c) && n < |c.order| && Swept(c, start, pre, post, n) && Within(c, start, pre)
    requires var a := c.order[n];
             && post' == post[a := At(post, a) + Joined(c, pre, a)]
             && a in pre' && At(pre', a) == Flow(c, a, At(post', a))
             && pre.Keys <= pre'.Keys && forall x :: x != a ==> At(pre', x) == At(pre, x)
    ensures Swept(c, start, pre', post', n + 1)
  {
    var a := c.order[n];
    forall i | 0 <= i <= n
      ensures c.order[i] in pre' && c.order[i] in post'
      ensures At(pre', c.order[i]) == Flow(c, c.order[i], At(post', c.order[i]))
      ensures Joined(c, start, c.order[i]) <= At(post', c.order[i])
      ensures Forward(c) ==> Joined(c, pre', c.order[i]) <= At(post', c.order[i])
    {
      if i == n {
        JoinedGrows(c, start, pre, a);
      }
      if Forward(c) {
        JoinedUnaffected(c, pre, pre', c.order[i], a);
      }
    }
  }

  /** What visiting an instruction does to the facts. */
  lemma Visited(c: Code, start: Facts, pre: Facts, post: Facts, looked: Facts, pre': Facts, post': Facts, n: nat)
    requires ValidCode(c) && n < |c.order| && Swept(c, start, pre, post, n) && Within(c, start, pre)
    requires pre.Keys <= looked.Keys && SameFacts(pre, looked) && Within(c, looked, pre')
    requires var a := c.order[n];
             && post' == post[a := At(post, a) + Joined(c, pre, a)]
             && pre' == looked[a := Flow(c, a, At(post', a))]
    ensures Within(c, start, pre') && Swept(c, start, pre', post', n + 1)
    ensures pre.Keys <= pre'.Keys && post.Keys <= post'.Keys
  {
    forall a | a in c.insns ensures At(start, a) <= At(pre', a) {
      assert At(pre, a) == At(looked, a);
    }
    forall x | x != c.order[n] ensures At(pre', x) == At(pre, x) {
      assert At(pre, x) == At(looked, x);
    }
    SweptNext(c, start, pre, post, pre', post', n);
  }

  lemma SweepEnds(c: Code, start: Facts, pre: Facts, post: Facts)
    requires ValidCode(c) && Justified(c, pre, post) && Swept(c, start, pre, post, |c.order|)
    ensures forall a :: a in c.insns ==> a in pre && a in post
    ensures start == pre || Forward(c) ==> IsSolution(c, pre, post)
  {
    forall a | a in c.insns
      ensures a in pre && a in post
      ensures start == pre || Forward(c) ==> At(post, a) == Joined(c, pre, a)
      ensures At(pre, a) == Flow(c, a, At(post, a))
    {
      var i :| 0 <= i < |c.order| && c.order[i] == a;
    }
  }

  lemma SolutionIsClosed(c: Code, pre: Facts, post: Facts)
    requires IsSolution(c, pre, post)
    ensures IsClosed(c, pre)
  {
  }

  lemma FactsBounded(c: Code, pre: Facts, post: Facts)
    requires ValidCode(c) && Justified(c, pre, post)
    ensures TotalSize(c, pre, |c.order|) <= |c.order| * |c.sub.Keys|
  {
    forall a | a in c.insns ensures |At(pre, a)| <= |c.sub.Keys| {
      assert At(pre, a) <= Flow(c, a, At(post, a)) <= c.sub.Keys;
      Sets.SubsetSize(At(pre, a), c.sub.Keys);
    }
    TotalBound(c, pre, |c.order|, |c.sub.Keys|);
  }

  lemma ChangedSomewhere(c: Code, before: Facts, pre: Facts)
    requires before.Keys == pre.Keys == c.insns.Keys && pre != before
    ensures exists a :: a in c.insns && At(before, a) != At(pre, a)
  {
    if forall a :: a in c.insns ==> At(before, a) == At(pre, a) {
      forall a | a in pre ensures pre[a] == before[a] {
        assert At(before, a) == At(pre, a);
      }
    }
  }

  /** A sweep that reports a change adds a fact; one that starts from a solution reports none. */
  lemma SweepGrows(c: Code, before: Facts, pre: Facts, post: Facts, changed: bool)
    requires ValidCode(c) && Justified(c, pre, post) && Within(c, before, pre)
    requires before.Keys == pre.Keys == c.insns.Keys && (changed <==> pre != before)
    ensures TotalSize(c, pre, |c.order|) >= TotalSize(c, before, |c.order|) + if changed then 1 else 0
    ensures TotalSize(c, pre, |c.order|) <= |c.order| * |c.sub.Keys|
    ensures IsClosed(c, before) ==> !changed
  {
    FactsBounded(c, pre, post);
    TotalGrows(c, before, pre, |c.order|);
    if changed {
      ChangedSomewhere(c, before, pre);
      var a :| a in c.insns && At(before, a) != At(pre, a);
      var i :| 0 <= i < |c.order| && c.order[i] == a;
    }
  }
}

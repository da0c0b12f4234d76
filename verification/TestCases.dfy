/** Test cases as graphs of basic blocks, and how the generator makes a function of one. */
module TestCases {
  /** Labels: the entry, the exit and the numbered blocks of each function, and the two that enclose the test
      case. Function 0 is the main one. */
  datatype Name = Entry(fn: nat) | Exit(fn: nat) | Node(fn: nat, index: nat) | CaseEnter | CaseExit

  datatype Terminator = CondBranch(opcode: string, target: Name) | Jump(target: Name) | Return

  /** A block; the instructions of its body are opaque. */
  datatype Block = Block(name: Name, body: seq<string>, terminators: seq<Terminator>, successors: seq<Name>)

  type Function = seq<Block>

  // ----- Graphs -----

  ghost predicate IsEdge(f: Function, a: Name, b: Name) {
    exists i :: 0 <= i < |f| && f[i].name == a && b in f[i].successors
  }

  ghost predicate IsPath(f: Function, p: seq<Name>) {
    p != [] && forall i :: 0 <= i < |p| - 1 ==> IsEdge(f, p[i], p[i + 1])
  }

  ghost predicate Leads(f: Function, a: Name, b: Name) {
    exists p :: IsPath(f, p) && p[0] == a && p[|p| - 1] == b
  }

  ghost predicate HasCycle(f: Function) {
    exists p :: IsPath(f, p) && |p| > 1 && p[0] == p[|p| - 1]
  }

  ghost predicate DistinctSuccessors(b: Block) {
    forall i, j :: 0 <= i < j < |b.successors| ==> b.successors[i] != b.successors[j]
  }

  // ----- Generating a function -----

  /** The name at a position of the function: entry, blocks, exit. */
  function NameAt(fn: nat, nodes: nat, i: nat): (n: Name)
    requires i <= nodes + 1
  {
    if i == 0 then Entry(fn) else if i <= nodes then Node(fn, i - 1) else Exit(fn)
  }

  /** What makes the function a graph without cycles in which every block is on the way from the entry to the
      exit: each block leads to the next one and otherwise only further on. */
  ghost predicate IsForward(fn: nat, f: Function) {
    && |f| >= 3
    && (forall i {:trigger f[i]} :: 0 <= i < |f| ==> f[i].name == NameAt(fn, |f| - 2, i))
    && (forall i {:trigger f[i]} :: 0 <= i < |f| - 1 ==> IsForwardBlock(fn, f, i))
    && f[|f| - 1].successors == []
  }

  ghost predicate IsForwardBlock(fn: nat, f: Function, i: nat)
    requires |f| >= 3 && i < |f| - 1
  {
    && 1 <= |f[i].successors| <= 2
    && f[i].successors[0] == NameAt(fn, |f| - 2, i + 1)
    && DistinctSuccessors(f[i])
    && forall t :: t in f[i].successors ==> exists j :: i < j < |f| && f[j].name == t
  }

  /** The random choices: how many successors each block gets, and which option is taken for the second. */
  datatype Choice = Choice(count: nat, option: nat)

  /** The next block and, if there are to be two successors, one of the blocks behind it or the exit. */
  function Chosen(fn: nat, nodeCount: nat, i: nat, choice: Choice): seq<Name>
    requires i < nodeCount - 1
  {
    [Node(fn, i + 1)] +
    if choice.count < 2 then [] else [NameAt(fn, nodeCount, i + 3 + choice.option % (nodeCount - i - 1))]
  }

  method ChooseSuccessors(fn: nat, nodeCount: nat, i: nat, choice: Choice) returns (successors: seq<Name>)
    requires i < nodeCount - 1 && 1 <= choice.count <= 2
    ensures successors == Chosen(fn, nodeCount, i, choice)
  {
    var count := choice.count;
    if count + i > nodeCount {
      count := nodeCount - i;
    }
    successors := [Node(fn, i + 1)];
    var options := seq(nodeCount - i - 2, (j: nat) => Node(fn, i + 2 + j)) + [Exit(fn)];
    for j := 1 to count
      invariant j == 1 ==> successors == [Node(fn, i + 1)]
      invariant j == 2 ==> successors == Chosen(fn, nodeCount, i, choice)
      invariant j == 1 ==> |options| == nodeCount - i - 1
      invariant j == 1 ==> forall k :: 0 <= k < |options| ==> options[k] == NameAt(fn, nodeCount, i + 3 + k)
    {
      var k := choice.option % |options|;
      var target := options[k];
      options := options[..k] + options[k + 1..];
      successors := successors + [target];
    }
  }

  /** Only the exit of a function other than the main one starts with a terminator. */
  function Returns(name: Name): seq<Terminator> {
    if name.Exit? && name.fn != 0 then [Return] else []
  }

  /** A numbered block as it is made; the last one leads to the exit. */
  function NodeFor(fn: nat, nodeCount: nat, i: nat, choice: Choice): Block
    requires i < nodeCount
  {
    Block(Node(fn, i), [], [], if i == nodeCount - 1 then [Exit(fn)] else Chosen(fn, nodeCount, i, choice))
  }

  method GenerateNodes(fn: nat, nodeCount: nat, choices: seq<Choice>) returns (nodes: seq<Block>)
    requires |choices| == nodeCount && forall i :: 0 <= i < nodeCount ==> 1 <= choices[i].count <= 2
    ensures |nodes| == nodeCount
    ensures forall i {:trigger nodes[i]} :: 0 <= i < nodeCount ==> nodes[i] == NodeFor(fn, nodeCount, i, choices[i])
  {
    nodes := seq(nodeCount, (i: nat) => Block(Node(fn, i), [], [], []));
    for i := 0 to nodeCount
      invariant |nodes| == nodeCount
      invariant forall j {:trigger nodes[j]} :: i <= j < nodeCount ==> nodes[j] == Block(Node(fn, j), [], [], [])
      invariant forall j {:trigger nodes[j]} :: 0 <= j < i ==> nodes[j] == NodeFor(fn, nodeCount, j, choices[j])
    {
      if i == nodeCount - 1 {
        nodes := nodes[i := nodes[i].(successors := [Exit(fn)])];
      } else {
        var successors := ChooseSuccessors(fn, nodeCount, i, choices[i]);
        nodes := nodes[i := nodes[i].(successors := successors)];
      }
    }
  }

  method GenerateFunction(fn: nat, nodeCount: nat, maxSuccessors: nat, choices: seq<Choice>) returns (f: Function)
    requires nodeCount >= 1 && 1 <= maxSuccessors <= 2 && |choices| == nodeCount
    requires forall i :: 0 <= i < nodeCount ==> 1 <= choices[i].count <= maxSuccessors
    ensures |f| == nodeCount + 2 && IsForward(fn, f)
    ensures f[0] == Block(Entry(fn), [], [], [Node(fn, 0)])
    ensures forall i {:trigger f[i]} :: 0 < i <= nodeCount ==> f[i] == NodeFor(fn, nodeCount, i - 1, choices[i - 1])
    ensures f[nodeCount + 1] == Block(Exit(fn), [], Returns(Exit(fn)), [])
  {
    var nodes := GenerateNodes(fn, nodeCount, choices);
    var entry := Block(Entry(fn), [], [], [Node(fn, 0)]);
    var exit := Block(Exit(fn), [], if fn != 0 then [Return] else [], []);
    f := [entry] + nodes + [exit];
    NodesAreForward(fn, nodeCount, choices, nodes);
    AssembledIsForward(fn, f, nodes, nodeCount);
    Enclosed(entry, nodes, exit);
  }

  lemma Enclosed(entry: Block, nodes: seq<Block>, exit: Block)
    ensures var f := [entry] + nodes + [exit];
            && f[0] == entry && f[|nodes| + 1] == exit
            && forall i {:trigger f[i]} :: 0 < i <= |nodes| ==> f[i] == nodes[i - 1]
  {
  }

  lemma NodesAreForward(fn: nat, nodeCount: nat, choices: seq<Choice>, nodes: seq<Block>)
    requires |choices| == |nodes| == nodeCount
    requires forall i {:trigger nodes[i]} :: 0 <= i < nodeCount ==> nodes[i] == NodeFor(fn, nodeCount, i, choices[i])
    ensures forall j {:trigger nodes[j]} :: 0 <= j < nodeCount ==>
      nodes[j].name == Node(fn, j) && IsForwardNode(fn, nodes[j], j, nodeCount)
  {
    forall j | 0 <= j < nodeCount ensures IsForwardNode(fn, nodes[j], j, nodeCount) {
      NodeIsForward(fn, nodeCount, j, choices[j]);
    }
  }

  lemma NodeIsForward(fn: nat, nodeCount: nat, i: nat, choice: Choice)
    requires i < nodeCount
    ensures IsForwardNode(fn, NodeFor(fn, nodeCount, i, choice), i, nodeCount)
  {
  }

  /** A later block than the next one. */
  predicate IsLater(fn: nat, n: Name, i: nat, nodeCount: nat) {
    n == Exit(fn) || (n.Node? && n.fn == fn && i + 2 <= n.index < nodeCount)
  }

  predicate IsForwardNode(fn: nat, b: Block, i: nat, nodeCount: nat) {
    if i == nodeCount - 1 then b.successors == [Exit(fn)]
    else
      || b.successors == [Node(fn, i + 1)]
      || (|b.successors| == 2 && b.successors[0] == Node(fn, i + 1) && IsLater(fn, b.successors[1], i, nodeCount))
  }

  lemma AssembledIsForward(fn: nat, f: Function, nodes: seq<Block>, nodeCount: nat)
    requires nodeCount >= 1 && |nodes| == nodeCount
    requires forall j {:trigger nodes[j]} :: 0 <= j < nodeCount ==>
      nodes[j].name == Node(fn, j) && IsForwardNode(fn, nodes[j], j, nodeCount)
    requires f == [Block(Entry(fn), [], [], [Node(fn, 0)])] + nodes + [Block(Exit(fn), [], Returns(Exit(fn)), [])]
    ensures IsForward(fn, f)
  {
    forall i | 0 <= i < |f| ensures f[i].name == NameAt(fn, nodeCount, i) {
      if 0 < i <= nodeCount {
        assert f[i] == nodes[i - 1];
      }
    }
    forall i | 0 <= i < |f| - 1 ensures IsForwardBlock(fn, f, i) {
      if i > 0 {
        assert f[i] == nodes[i - 1];
      }
      forall t | t in f[i].successors ensures exists j :: i < j < |f| && f[j].name == t {
        var j := if t.Exit? then nodeCount + 1 else t.index + 1;
        assert f[j].name == t;
      }
    }
  }

  /** As many successors as asked for, the next block first. */
  lemma SuccessorCount(fn: nat, nodeCount: nat, i: nat, choice: Choice)
    requires i < nodeCount - 1 && 1 <= choice.count <= 2
    ensures var s := NodeFor(fn, nodeCount, i, choice).successors; |s| == choice.count && s[0] == Node(fn, i + 1)
  {
  }

  lemma OptionFor(fn: nat, nodeCount: nat, i: nat, n: Name) returns (option: nat)
    requires i < nodeCount - 1 && IsLater(fn, n, i, nodeCount)
    ensures option < nodeCount - i - 1
    ensures NodeFor(fn, nodeCount, i, Choice(2, option)).successors == [Node(fn, i + 1), n]
  {
    option := if n.Exit? then nodeCount - i - 2 else n.index - i - 2;
    assert option % (nodeCount - i - 1) == option;
  }

  /** The second successor is any of the blocks behind the next one, or the exit, and nothing else: each of them is
      what some choice leads to. */
  lemma AnyLaterBlock(fn: nat, nodeCount: nat, i: nat, n: Name)
    requires i < nodeCount - 1
    ensures (exists choice: Choice :: choice.count == 2 &&
              NodeFor(fn, nodeCount, i, choice).successors == [Node(fn, i + 1), n])
            <==> n == Exit(fn) || exists k :: i + 2 <= k < nodeCount && n == Node(fn, k)
  {
    if n == Exit(fn) || exists k :: i + 2 <= k < nodeCount && n == Node(fn, k) {
      var option := OptionFor(fn, nodeCount, i, n);
      assert Choice(2, option).count == 2;
    }
    if choice: Choice :| choice.count == 2 && NodeFor(fn, nodeCount, i, choice).successors == [Node(fn, i + 1), n] {
      NodeIsForward(fn, nodeCount, i, choice);
    }
  }

  // ----- Forward functions -----

  function Rank(f: Function, n: Name): int {
    if n.Entry? then 0 else if n.Node? then n.index + 1 else |f|
  }

  lemma EdgesGoUp(fn: nat, f: Function, a: Name, b: Name)
    requires IsForward(fn, f) && IsEdge(f, a, b)
    ensures Rank(f, a) < Rank(f, b)
  {
    var i :| 0 <= i < |f| && f[i].name == a && b in f[i].successors;
    assert IsForwardBlock(fn, f, i);
    var j :| i < j < |f| && f[j].name == b;
  }

  lemma {:induction false} PathsGoUp(fn: nat, f: Function, p: seq<Name>)
    requires IsForward(fn, f) && IsPath(f, p)
    ensures Rank(f, p[|p| - 1]) >= Rank(f, p[0]) + |p| - 1
  {
    if |p| > 1 {
      var q := p[..|p| - 1];
      forall i | 0 <= i < |q| - 1 ensures IsEdge(f, q[i], q[i + 1]) {
        assert IsEdge(f, p[i], p[i + 1]);
      }
      PathsGoUp(fn, f, q);
      assert IsEdge(f, p[|p| - 2], p[|p| - 2 + 1]);
      EdgesGoUp(fn, f, p[|p| - 2], p[|p| - 1]);
    }
  }

  /** The blocks in order are a path. */
  lemma NextIsPath(fn: nat, f: Function, i: nat, j: nat)
    requires IsForward(fn, f) && i <= j < |f|
    ensures Leads(f, f[i].name, f[j].name)
  {
    var p := seq(j - i + 1, (k: nat) requires k < j - i + 1 => f[i + k].name);
    forall k | 0 <= k < |p| - 1 ensures IsEdge(f, p[k], p[k + 1]) {
      assert IsForwardBlock(fn, f, i + k);
      assert f[i + k].successors[0] in f[i + k].successors;
      assert f[i + k].name == p[k] && p[k + 1] == f[i + (k + 1)].name;
    }
    assert IsPath(f, p) && p[0] == f[i].name && p[|p| - 1] == f[j].name;
  }

  /** What a generated function is: no cycles, every block reachable from the entry and reaching the exit,
      and distinct successors. */
  lemma ForwardIsDag(fn: nat, f: Function)
    requires IsForward(fn, f)
    ensures !HasCycle(f)
    ensures forall i :: 0 <= i < |f| ==>
      Leads(f, Entry(fn), f[i].name) && Leads(f, f[i].name, Exit(fn)) && DistinctSuccessors(f[i])
  {
    if p :| IsPath(f, p) && |p| > 1 && p[0] == p[|p| - 1] {
      PathsGoUp(fn, f, p);
    }
    forall i | 0 <= i < |f|
      ensures Leads(f, Entry(fn), f[i].name) && Leads(f, f[i].name, Exit(fn)) && DistinctSuccessors(f[i])
    {
      assert f[0].name == Entry(fn) && f[|f| - 1].name == Exit(fn);
      NextIsPath(fn, f, 0, i);
      NextIsPath(fn, f, i, |f| - 1);
      assert i < |f| - 1 ==> IsForwardBlock(fn, f, i);
    }
  }

  // ----- Terminators -----

  /** The branches of a block: none where it falls through to the exit of its function. The opcode of a
      conditional branch is a random choice. */
  function Branches(fn: nat, successors: seq<Name>, opcode: string): seq<Terminator>
    requires |successors| <= 2
  {
    if |successors| == 0 || successors == [Exit(fn)] then []
    else if |successors| == 1 then [Jump(successors[0])]
    else [CondBranch(opcode, successors[0]), Jump(successors[1])]
  }

  datatype Result<T> = Ok(value: T) | NotSupported | NoHeader | MisplacedTerminator | UnknownLabel

  method AddTerminators(fn: nat, f: Function, opcodes: seq<string>) returns (r: Result<Function>)
    requires |opcodes| == |f|
    ensures r.Ok? <==> forall i :: 0 <= i < |f| ==> |f[i].successors| <= 2
    ensures r.Ok? ==> |r.value| == |f|
    ensures r.Ok? ==> forall i {:trigger r.value[i]} :: 0 <= i < |f| ==>
      r.value[i] == f[i].(terminators := f[i].terminators + Branches(fn, f[i].successors, opcodes[i]))
  {
    var g := f;
    for n := 0 to |f|
      invariant |g| == |f|
      invariant forall i {:trigger g[i]} :: n <= i < |f| ==> g[i] == f[i]
      invariant forall i {:trigger f[i]} :: 0 <= i < n ==> |f[i].successors| <= 2
      invariant forall i {:trigger g[i]} :: 0 <= i < n ==>
        g[i] == f[i].(terminators := f[i].terminators + Branches(fn, f[i].successors, opcodes[i]))
    {
      if |f[n].successors| > 2 {
        return NotSupported;
      }
      var terminators := AddBranches(fn, f[n], opcodes[n]);
      g := g[n := g[n].(terminators := terminators)];
    }
    r := Ok(g);
  }

  method AddBranches(fn: nat, b: Block, opcode: string) returns (ts: seq<Terminator>)
    requires |b.successors| <= 2
    ensures ts == b.terminators + Branches(fn, b.successors, opcode)
  {
    var s := b.successors;
    ts := b.terminators;
    if |s| == 1 {
      assert s == [s[0]];
      if s[0] != Exit(fn) {
        ts := ts + [Jump(s[0])];
      }
    } else if |s| == 2 {
      ts := ts + [CondBranch(opcode, s[0])];
      ts := ts + [Jump(s[1])];
    }
  }

  /** A block with the terminators it gets. */
  ghost predicate IsTerminated(b: Block) {
    && |b.successors| <= 2 && (b.name.Entry? || b.name.Exit? || b.name.Node?)
    && exists op :: b.terminators == Returns(b.name) + Branches(b.name.fn, b.successors, op)
  }
}

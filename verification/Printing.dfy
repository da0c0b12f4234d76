/** How test cases are printed and parsed: the graph of blocks survives. A test case is given by its blocks in
    order, function by function. */
module Printing {
  import opened TestCases

  // ----- Printing -----

  datatype Line = Blank | FunctionLabel(fn: nat) | Label(name: Name) | Plain(text: string)
                | Branch(terminator: Terminator)

  function PrintBody(texts: seq<string>): seq<Line> {
    if texts == [] then [] else [Plain(texts[0])] + PrintBody(texts[1..])
  }

  function PrintTerminators(ts: seq<Terminator>): seq<Line> {
    if ts == [] then [] else [Branch(ts[0])] + PrintTerminators(ts[1..])
  }

  /** The label of a function comes before its entry. */
  function PrintBlock(b: Block): seq<Line> {
    (if b.name.Entry? then [FunctionLabel(b.name.fn)] else []) + ([Label(b.name)] + PrintCode(b))
  }

  function PrintCode(b: Block): seq<Line> {
    PrintBody(b.body) + PrintTerminators(b.terminators)
  }

  function PrintBlocks(f: Function): seq<Line> {
    if f == [] then [] else PrintBlock(f[0]) + PrintBlocks(f[1..])
  }

  const PROLOGUE: seq<Line> := [Plain("LEA"), Plain("MFENCE")]
  const EPILOGUE: seq<Line> := [Plain("MFENCE"), Plain("LEA")]

  function Print(f: Function): seq<Line> {
    PROLOGUE + [Label(CaseEnter)] + (PrintBlocks(f) + ([Label(CaseExit)] + EPILOGUE))
  }

  // ----- Parsing -----

  /** The lines behind the header. */
  function Started(lines: seq<Line>): Result<seq<Line>> {
    if lines == [] then NoHeader
    else if lines[0] == Label(CaseEnter) then Ok(lines[1..])
    else Started(lines[1..])
  }

  /** The lines before the footer. */
  function Content(lines: seq<Line>): seq<Line> {
    if lines == [] || lines[0] == Label(CaseExit) then [] else [lines[0]] + Content(lines[1..])
  }

  /** First pass, in a function: a block for each label that is not an entry or an exit, then the exit of the
      function. The label of a function other than the main one starts the next function. */
  function Blocks(fn: nat, lines: seq<Line>): Function
    decreases |lines|
  {
    if lines == [] then [Empty(Exit(fn))]
    else if lines[0].FunctionLabel? && lines[0].fn != 0 then
      [Empty(Exit(fn)), Empty(Entry(lines[0].fn))] + Blocks(lines[0].fn, lines[1..])
    else if lines[0].Label? && !lines[0].name.Entry? && !lines[0].name.Exit? then
      [Empty(lines[0].name)] + Blocks(fn, lines[1..])
    else Blocks(fn, lines[1..])
  }

  function Empty(name: Name): Block {
    Block(name, [], [], [])
  }

  /** The blocks of the test case, which starts in the main function. */
  function AllBlocks(lines: seq<Line>): (f: Function)
    ensures f != []
  {
    [Empty(Entry(0))] + Blocks(0, lines)
  }

  /** The last block of a name: the map of names is filled in order. */
  function Find(f: Function, name: Name): (r: Result<nat>)
    ensures r.Ok? ==> r.value < |f| && f[r.value].name == name
  {
    if f == [] then UnknownLabel
    else if f[|f| - 1].name == name then Ok(|f| - 1)
    else Find(f[..|f| - 1], name)
  }

  datatype State = State(blocks: Function, current: nat, terminated: bool)

  /** Second pass: one line. */
  function ParseLine(s: State, line: Line): (r: Result<State>)
    requires s.current < |s.blocks|
    ensures r.Ok? ==> r.value.current < |r.value.blocks|
  {
    var b := s.blocks[s.current];
    match line
    case Blank => Ok(s)
    case FunctionLabel(fn) =>
      var at := Find(s.blocks, Entry(fn));
      if at.Ok? then Ok(State(s.blocks, at.value, false)) else UnknownLabel
    case Label(name) =>
      var at := Find(s.blocks, name);
      if at.Ok? then Ok(State(s.blocks, at.value, false)) else UnknownLabel
    case Plain(text) =>
      if s.terminated then MisplacedTerminator
      else Ok(State(s.blocks[s.current := b.(body := b.body + [text])], s.current, false))
    case Branch(t) =>
      Ok(State(s.blocks[s.current := b.(terminators := b.terminators + [t])], s.current, true))
  }

  function ParseLines(s: State, lines: seq<Line>): (r: Result<State>)
    requires s.current < |s.blocks|
    ensures r.Ok? ==> r.value.current < |r.value.blocks|
    decreases |lines|
  {
    if lines == [] then Ok(s)
    else
      var next := ParseLine(s, lines[0]);
      if next.Ok? then ParseLines(next.value, lines[1..]) else next
  }

  /** The labels that terminators name; a return has none. */
  function Targets(ts: seq<Terminator>): seq<Name> {
    if ts == [] then []
    else Targets(ts[..|ts| - 1]) + if ts[|ts| - 1].Return? then [] else [ts[|ts| - 1].target]
  }

  /** The branches of a block, then the next block unless an unconditional jump ends it. */
  function Successors(f: Function, i: nat): seq<Name>
    requires i < |f|
  {
    var ts := f[i].terminators;
    Targets(ts) + if i + 1 < |f| && (ts == [] || !ts[|ts| - 1].Jump?) then [f[i + 1].name] else []
  }

  predicate AllFound(f: Function, ts: seq<Terminator>) {
    forall k :: 0 <= k < |ts| ==> ts[k].Return? || Find(f, ts[k].target).Ok?
  }

  predicate TargetsExist(f: Function) {
    forall i :: 0 <= i < |f| ==> AllFound(f, f[i].terminators)
  }

  function Connected(f: Function): Function {
    seq(|f|, (i: nat) requires i < |f| => f[i].(successors := Successors(f, i)))
  }

  function Parse(lines: seq<Line>): Result<Function> {
    var started := Started(lines);
    if !started.Ok? then NoHeader
    else
      var content := Content(started.value);
      var parsed := ParseLines(State(AllBlocks(content), 0, false), content);
      if !parsed.Ok? then (match parsed case MisplacedTerminator => MisplacedTerminator case _ => UnknownLabel)
      else if TargetsExist(parsed.value.blocks) then Ok(Connected(parsed.value.blocks))
      else UnknownLabel
  }

  /** The parser: both passes over the lines, then the edges between the blocks. */
  method ParseTestCase(lines: seq<Line>) returns (r: Result<Function>)
    ensures r == Parse(lines)
  {
    var begin := 0;
    while begin < |lines| && lines[begin] != Label(CaseEnter)
      invariant 0 <= begin <= |lines| && Started(lines[begin..]) == Started(lines)
    {
      begin := begin + 1;
    }
    if begin == |lines| {
      return NoHeader;
    }
    assert lines[begin..][1..] == lines[begin + 1..];
    var content := CollectContent(lines[begin + 1..]);
    var blocks := CollectBlocks(content);
    var s := State(blocks, 0, false);
    for n := 0 to |content|
      invariant s.current < |s.blocks|
      invariant ParseLines(s, content[n..]) == ParseLines(State(AllBlocks(content), 0, false), content)
    {
      assert content[n..][1..] == content[n + 1..];
      var next := ParseLine(s, content[n]);
      if !next.Ok? {
        return if next.MisplacedTerminator? then MisplacedTerminator else UnknownLabel;
      }
      s := next.value;
    }
    r := Connect(s.blocks);
  }

  method CollectContent(lines: seq<Line>) returns (content: seq<Line>)
    ensures content == Content(lines)
  {
    content := [];
    var n := 0;
    while n < |lines| && lines[n] != Label(CaseExit)
      invariant 0 <= n <= |lines| && content + Content(lines[n..]) == Content(lines)
    {
      assert lines[n..][1..] == lines[n + 1..];
      content := content + [lines[n]];
      n := n + 1;
    }
  }

  method CollectBlocks(lines: seq<Line>) returns (blocks: Function)
    ensures blocks == AllBlocks(lines)
  {
    blocks := [Empty(Entry(0))];
    var fn := 0;
    for n := 0 to |lines|
      invariant blocks + Blocks(fn, lines[n..]) == AllBlocks(lines)
    {
      assert lines[n..][1..] == lines[n + 1..];
      if lines[n].FunctionLabel? && lines[n].fn != 0 {
        blocks := blocks + [Empty(Exit(fn)), Empty(Entry(lines[n].fn))];
        fn := lines[n].fn;
      } else if lines[n].Label? && !lines[n].name.Entry? && !lines[n].name.Exit? {
        blocks := blocks + [Empty(lines[n].name)];
      }
    }
    blocks := blocks + [Empty(Exit(fn))];
  }

  /** Fall through to the next block when it is reached, after the branches of this one. */
  method Connect(blocks: Function) returns (r: Result<Function>)
    ensures r == if TargetsExist(blocks) then Ok(Connected(blocks)) else UnknownLabel
  {
    var succ: seq<seq<Name>> := [];
    for n := 0 to |blocks|
      invariant |succ| == n
      invariant forall i {:trigger succ[i]} :: 0 <= i < n - 1 ==> succ[i] == Successors(blocks, i)
      invariant n > 0 ==> succ[n - 1] == Targets(blocks[n - 1].terminators)
      invariant forall i {:trigger blocks[i]} :: 0 <= i < n ==> AllFound(blocks, blocks[i].terminators)
    {
      if n > 0 {
        var ts := blocks[n - 1].terminators;
        if ts == [] || !ts[|ts| - 1].Jump? {
          succ := succ[n - 1 := succ[n - 1] + [blocks[n].name]];
        }
        assert succ[n - 1] == Successors(blocks, n - 1);
      }
      var found, targets := CollectTargets(blocks, blocks[n].terminators);
      if !found {
        return UnknownLabel;
      }
      succ := succ + [targets];
    }
    assert |blocks| > 0 ==> succ[|blocks| - 1] == Successors(blocks, |blocks| - 1);
    r := Ok(seq(|blocks|, (i: nat) requires i < |blocks| && |succ| == |blocks| => blocks[i].(successors := succ[i])));
    assert forall i {:trigger r.value[i]} :: 0 <= i < |blocks| ==> r.value[i] == Connected(blocks)[i];
    assert r.value == Connected(blocks);
  }

  method CollectTargets(f: Function, ts: seq<Terminator>) returns (found: bool, targets: seq<Name>)
    ensures found <==> AllFound(f, ts)
    ensures found ==> targets == Targets(ts)
  {
    targets := [];
    for k := 0 to |ts|
      invariant targets == Targets(ts[..k]) && AllFound(f, ts[..k])
    {
      assert ts[..k + 1][..k] == ts[..k];
      if !ts[k].Return? {
        if !Find(f, ts[k].target).Ok? {
          return false, targets;
        }
        targets := targets + [ts[k].target];
      }
    }
    assert ts[..|ts|] == ts;
    return true, targets;
  }

  // ----- Reading back what was printed -----

  lemma {:induction false} StartedBehind(a: seq<Line>, b: seq<Line>)
    requires Label(CaseEnter) !in a
    ensures Started(a + [Label(CaseEnter)] + b) == Ok(b)
  {
    var all := a + [Label(CaseEnter)] + b;
    if a == [] {
      assert all[1..] == b;
    } else {
      assert all[0] == a[0] && a[0] in a && all[1..] == a[1..] + [Label(CaseEnter)] + b;
      StartedBehind(a[1..], b);
    }
  }

  lemma {:induction false} ContentBefore(a: seq<Line>, b: seq<Line>)
    requires Label(CaseExit) !in a
    ensures Content(a + ([Label(CaseExit)] + b)) == a
  {
    var all := a + ([Label(CaseExit)] + b);
    if a != [] {
      assert all[0] == a[0] && a[0] in a && all[1..] == a[1..] + ([Label(CaseExit)] + b);
      ContentBefore(a[1..], b);
    }
  }

  lemma {:induction false} BodyLines(texts: seq<string>, l: Line)
    requires l in PrintBody(texts)
    ensures l.Plain?
  {
    if l != Plain(texts[0]) {
      BodyLines(texts[1..], l);
    }
  }

  lemma {:induction false} TerminatorLines(ts: seq<Terminator>, l: Line)
    requires l in PrintTerminators(ts)
    ensures l.Branch?
  {
    if l != Branch(ts[0]) {
      TerminatorLines(ts[1..], l);
    }
  }

  lemma CodeLines(b: Block, l: Line)
    requires l in PrintCode(b)
    ensures l.Plain? || l.Branch?
  {
    if l in PrintBody(b.body) {
      BodyLines(b.body, l);
    } else {
      TerminatorLines(b.terminators, l);
    }
  }

  /** The only block label printed for a block is its name. */
  lemma LabelsOfBlock(b: Block, l: Line)
    requires l in PrintBlock(b) && l.Label?
    ensures l == Label(b.name)
  {
    if l in PrintCode(b) {
      CodeLines(b, l);
    }
  }

  lemma {:induction false} LabelsOfBlocks(f: Function, l: Line)
    requires l in PrintBlocks(f) && l.Label?
    ensures exists i :: 0 <= i < |f| && l == Label(f[i].name)
  {
    if l in PrintBlock(f[0]) {
      LabelsOfBlock(f[0], l);
    } else {
      LabelsOfBlocks(f[1..], l);
      var i :| 0 <= i < |f[1..]| && l == Label(f[1..][i].name);
      assert f[1..][i] == f[i + 1];
    }
  }

  // ----- First pass -----

  /** Code adds no block. */
  lemma {:induction false} SkipCode(fn: nat, code: seq<Line>, rest: seq<Line>)
    requires forall l :: l in code ==> l.Plain? || l.Branch?
    ensures Blocks(fn, code + rest) == Blocks(fn, rest)
  {
    if code == [] {
      assert code + rest == rest;
    } else {
      assert (code + rest)[0] == code[0] && code[0] in code && (code + rest)[1..] == code[1..] + rest;
      SkipCode(fn, code[1..], rest);
    }
  }

  lemma SkipBlockCode(fn: nat, b: Block, rest: seq<Line>)
    ensures Blocks(fn, PrintCode(b) + rest) == Blocks(fn, rest)
  {
    forall l | l in PrintCode(b) ensures l.Plain? || l.Branch? {
      CodeLines(b, l);
    }
    SkipCode(fn, PrintCode(b), rest);
  }

  /** What a block in the middle of a function adds. */
  lemma BlocksOfBlock(fn: nat, b: Block, rest: seq<Line>)
    requires !b.name.Entry?
    ensures Blocks(fn, PrintBlock(b) + rest) == (if b.name.Exit? then [] else [Empty(b.name)]) + Blocks(fn, rest)
  {
    var all := PrintBlock(b) + rest;
    assert all == [Label(b.name)] + (PrintCode(b) + rest);
    assert all[1..] == PrintCode(b) + rest;
    SkipBlockCode(fn, b, rest);
  }

  /** What the entry of a function adds. */
  lemma BlocksOfEntry(fn: nat, b: Block, rest: seq<Line>)
    requires b.name.Entry?
    ensures Blocks(fn, PrintBlock(b) + rest) ==
            if b.name.fn == 0 then Blocks(fn, rest)
            else [Empty(Exit(fn)), Empty(b.name)] + Blocks(b.name.fn, rest)
  {
    var all := PrintBlock(b) + rest;
    assert all == [FunctionLabel(b.name.fn), Label(b.name)] + (PrintCode(b) + rest);
    assert all[1..] == [Label(b.name)] + (PrintCode(b) + rest);
    assert all[1..][1..] == PrintCode(b) + rest;
    SkipBlockCode(fn, b, rest);
    SkipBlockCode(b.name.fn, b, rest);
  }

  function Cleared(f: Function): Function {
    if f == [] then [] else [Empty(f[0].name)] + Cleared(f[1..])
  }

  lemma {:induction false} ClearedAt(f: Function)
    ensures |Cleared(f)| == |f|
    ensures forall i {:trigger Cleared(f)[i]} :: 0 <= i < |f| ==> Cleared(f)[i] == Empty(f[i].name)
  {
    if f != [] {
      ClearedAt(f[1..]);
    }
  }

  lemma PrintFrom(f: Function, k: nat)
    requires k < |f|
    ensures PrintBlocks(f[k..]) == PrintBlock(f[k]) + PrintBlocks(f[k + 1..])
    ensures Cleared(f[k..]) == [Empty(f[k].name)] + Cleared(f[k + 1..])
  {
    assert f[k..][1..] == f[k + 1..];
  }

  /** Between two functions. */
  lemma ExitThenEntry(exit: Block, entry: Block, rest: seq<Line>)
    requires exit.name.Exit? && entry.name.Entry? && entry.name.fn != 0
    ensures Blocks(exit.name.fn, PrintBlock(exit) + (PrintBlock(entry) + rest))
            == [Empty(exit.name)] + ([Empty(entry.name)] + Blocks(entry.name.fn, rest))
  {
    BlocksOfBlock(exit.name.fn, exit, PrintBlock(entry) + rest);
    BlocksOfEntry(exit.name.fn, entry, rest);
    Regrouped(Empty(exit.name), Empty(entry.name), Blocks(entry.name.fn, rest));
  }

  lemma Regrouped<T>(a: T, b: T, rest: seq<T>)
    ensures [] + ([a, b] + rest) == [a] + ([b] + rest)
  {
  }

  lemma LastExit(exit: Block)
    requires exit.name.Exit?
    ensures Blocks(exit.name.fn, PrintBlock(exit) + []) == [Empty(exit.name)] + []
  {
    BlocksOfBlock(exit.name.fn, exit, []);
  }

  /** The first pass over the blocks from k on, within a function, finds them and nothing else. */
  lemma {:induction false} BlocksFrom(f: Function, k: nat)
    requires IsLaidOut(f) && DistinctNames(f) && 0 < k < |f| && (f[k].name.Node? || f[k].name.Exit?)
    ensures Blocks(f[k].name.fn, PrintBlocks(f[k..])) == Cleared(f[k..])
    decreases |f| - k
  {
    PrintFrom(f, k);
    if f[k].name.Node? {
      AfterNode(f, k);
      BlocksFrom(f, k + 1);
      BlocksOfBlock(f[k].name.fn, f[k], PrintBlocks(f[k + 1..]));
    } else if k + 1 < |f| {
      AfterExit(f, k);
      PrintFrom(f, k + 1);
      BlocksFrom(f, k + 2);
      ExitThenEntry(f[k], f[k + 1], PrintBlocks(f[k + 2..]));
    } else {
      LastExit(f[k]);
    }
  }

  lemma AfterNode(f: Function, k: nat)
    requires IsLaidOut(f) && k < |f| && f[k].name.Node?
    ensures k + 1 < |f| && (f[k + 1].name.Node? || f[k + 1].name.Exit?) && f[k + 1].name.fn == f[k].name.fn
  {
    assert InPlace(f, k + 1);
  }

  lemma AfterExit(f: Function, k: nat)
    requires IsLaidOut(f) && DistinctNames(f) && k + 1 < |f| && f[k].name.Exit?
    ensures f[k + 1].name.Entry? && f[k + 1].name.fn != 0
    ensures k + 2 < |f| && (f[k + 2].name.Node? || f[k + 2].name.Exit?) && f[k + 2].name.fn == f[k + 1].name.fn
  {
    assert InPlace(f, k + 1);
    assert f[0].name != f[k + 1].name;
    assert InPlace(f, k + 2);
  }

  // ----- Second pass -----

  lemma {:induction false} ParseConcat(s: State, a: seq<Line>, b: seq<Line>)
    requires s.current < |s.blocks|
    ensures ParseLines(s, a + b) ==
            var r := ParseLines(s, a); if r.Ok? then ParseLines(r.value, b) else r
    decreases |a|
  {
    if a == [] {
      assert a + b == b;
    } else {
      assert (a + b)[0] == a[0] && (a + b)[1..] == a[1..] + b;
      var next := ParseLine(s, a[0]);
      if next.Ok? {
        ParseConcat(next.value, a[1..], b);
      }
    }
  }

  lemma ParseFirst(s: State, line: Line, rest: seq<Line>)
    requires s.current < |s.blocks| && ParseLine(s, line).Ok?
    ensures ParseLines(s, [line] + rest) == ParseLines(ParseLine(s, line).value, rest)
  {
    assert ([line] + rest)[1..] == rest;
  }

  lemma UpdateTwice<T>(a: seq<T>, i: nat, x: T, y: T)
    requires i < |a|
    ensures a[i := x][i := y] == a[i := y] && a[i := a[i]] == a && a[i := x][i] == x
  {
  }

  lemma {:induction false} ParseBody(s: State, texts: seq<string>)
    requires s.current < |s.blocks| && !s.terminated
    ensures var b := s.blocks[s.current];
            ParseLines(s, PrintBody(texts)) == Ok(s.(blocks := s.blocks[s.current := b.(body := b.body + texts)]))
    decreases |texts|
  {
    var b := s.blocks[s.current];
    if texts == [] {
      assert b.body + texts == b.body;
      UpdateTwice(s.blocks, s.current, b, b);
    } else {
      var first := b.(body := b.body + [texts[0]]);
      var next := State(s.blocks[s.current := first], s.current, false);
      ParseFirst(s, Plain(texts[0]), PrintBody(texts[1..]));
      ParseBody(next, texts[1..]);
      assert b.body + [texts[0]] + texts[1..] == b.body + texts;
      UpdateTwice(s.blocks, s.current, first, b.(body := b.body + texts));
    }
  }

  lemma {:induction false} ParseTerminators(s: State, ts: seq<Terminator>)
    requires s.current < |s.blocks|
    ensures var b := s.blocks[s.current];
            ParseLines(s, PrintTerminators(ts)) ==
            Ok(State(s.blocks[s.current := b.(terminators := b.terminators + ts)], s.current, s.terminated || ts != []))
    decreases |ts|
  {
    var b := s.blocks[s.current];
    if ts == [] {
      assert b.terminators + ts == b.terminators;
      UpdateTwice(s.blocks, s.current, b, b);
    } else {
      var first := b.(terminators := b.terminators + [ts[0]]);
      var next := State(s.blocks[s.current := first], s.current, true);
      ParseFirst(s, Branch(ts[0]), PrintTerminators(ts[1..]));
      ParseTerminators(next, ts[1..]);
      assert b.terminators + [ts[0]] + ts[1..] == b.terminators + ts;
      UpdateTwice(s.blocks, s.current, first, b.(terminators := b.terminators + ts));
    }
  }

  ghost predicate DistinctNames(f: Function) {
    forall i, j :: 0 <= i < j < |f| ==> f[i].name != f[j].name
  }

  lemma {:induction false} FindUnique(f: Function, k: nat)
    requires DistinctNames(f) && k < |f|
    ensures Find(f, f[k].name) == Ok(k)
  {
    if k < |f| - 1 {
      FindUnique(f[..|f| - 1], k);
    }
  }

  /** The blocks when the lines of the first k have been parsed. */
  function Filled(f: Function, k: nat): Function {
    seq(|f|, (i: nat) requires i < |f| => if i < k then f[i].(successors := []) else Empty(f[i].name))
  }

  lemma ParseLabels(s: State, b: Block, s1: State)
    requires s.current < |s.blocks| && s1.current < |s.blocks| && s1 == State(s.blocks, s1.current, false)
    requires Find(s.blocks, b.name) == Ok(s1.current)
    ensures ParseLines(s, PrintBlock(b)) == ParseLines(s1, PrintCode(b))
  {
    ParseFirst(s, Label(b.name), PrintCode(b));
    if b.name.Entry? {
      ParseFirst(s, FunctionLabel(b.name.fn), [Label(b.name)] + PrintCode(b));
      ParseFirst(s1, Label(b.name), PrintCode(b));
    } else {
      assert PrintBlock(b) == [Label(b.name)] + PrintCode(b);
    }
  }

  lemma ParseOneBlock(f: Function, k: nat, s: State)
    requires DistinctNames(f) && k < |f| && s.blocks == Filled(f, k) && s.current < |f|
    ensures ParseLines(s, PrintBlock(f[k])) == Ok(State(Filled(f, k + 1), k, f[k].terminators != []))
  {
    var b := f[k];
    assert Filled(f, k)[k].name == b.name;
    FindUnique(Filled(f, k), k);
    var s1 := State(Filled(f, k), k, false);
    ParseLabels(s, b, s1);
    ParseConcat(s1, PrintBody(b.body), PrintTerminators(b.terminators));
    ParseBody(s1, b.body);
    var s2 := State(Filled(f, k)[k := Block(b.name, b.body, [], [])], k, false);
    assert [] + b.body == b.body && [] + b.terminators == b.terminators;
    assert ParseLines(s1, PrintBody(b.body)) == Ok(s2);
    ParseTerminators(s2, b.terminators);
    assert s2.blocks[k := b.(successors := [])] == Filled(f, k + 1);
  }

  lemma {:induction false} ParseAllBlocks(f: Function, k: nat, s: State) returns (last: State)
    requires DistinctNames(f) && k <= |f| && s.blocks == Filled(f, k) && s.current < |f|
    ensures last.blocks == Filled(f, |f|) && last.current < |f|
    ensures ParseLines(s, PrintBlocks(f[k..])) == Ok(last)
    decreases |f| - k
  {
    if k == |f| {
      last := s;
    } else {
      ParseOneBlock(f, k, s);
      last := ParseAllBlocks(f, k + 1, State(Filled(f, k + 1), k, f[k].terminators != []));
      assert f[k..][0] == f[k] && f[k..][1..] == f[k + 1..];
      ParseConcat(s, PrintBlock(f[k]), PrintBlocks(f[k + 1..]));
    }
  }

  // ----- Round trip -----

  /** Each function is its entry, its numbered blocks and its exit, and the main one comes first. */
  ghost predicate InPlace(f: Function, i: nat)
    requires 0 < i < |f|
  {
    var before, here := f[i - 1].name, f[i].name;
    match here
    case Entry(_) => before.Exit?
    case Exit(fn) => (before.Entry? || before.Node?) && before.fn == fn
    case Node(fn, _) => (before.Entry? || before.Node?) && before.fn == fn
    case _ => false
  }

  ghost predicate IsLaidOut(f: Function) {
    && |f| >= 2 && f[0].name == Entry(0) && f[|f| - 1].name.Exit?
    && forall i :: 0 < i < |f| ==> InPlace(f, i)
  }

  /** And the branches go to blocks of the test case. */
  ghost predicate WellNamed(f: Function) {
    && IsLaidOut(f) && DistinctNames(f)
    && (forall i, t :: 0 <= i < |f| && t in f[i].successors ==> exists j :: 0 <= j < |f| && f[j].name == t)
  }

  lemma PrintedIsParsed(f: Function)
    requires WellNamed(f)
    requires forall i :: 0 <= i < |f| ==> IsTerminated(f[i])
    ensures Parse(Print(f)) == Ok(Connected(Filled(f, |f|)))
  {
    var content := PrintBlocks(f);
    StartedBehind(PROLOGUE, content + ([Label(CaseExit)] + EPILOGUE));
    NoFooter(f);
    ContentBefore(content, EPILOGUE);
    FirstPass(f);
    assert f[0..] == f;
    var last := ParseAllBlocks(f, 0, State(Filled(f, 0), 0, false));
    TargetsAreFound(f);
  }

  lemma NoFooter(f: Function)
    requires IsLaidOut(f)
    ensures Label(CaseExit) !in PrintBlocks(f)
  {
    if Label(CaseExit) in PrintBlocks(f) {
      LabelsOfBlocks(f, Label(CaseExit));
      var i :| 0 <= i < |f| && Label(CaseExit) == Label(f[i].name);
      IsBlockName(f, i);
    }
  }

  lemma IsBlockName(f: Function, i: nat)
    requires IsLaidOut(f) && i < |f|
    ensures f[i].name.Entry? || f[i].name.Exit? || f[i].name.Node?
  {
    assert i > 0 ==> InPlace(f, i);
  }

  lemma FirstPass(f: Function)
    requires IsLaidOut(f) && DistinctNames(f)
    ensures AllBlocks(PrintBlocks(f)) == Filled(f, 0)
  {
    BlocksOfEntry(0, f[0], PrintBlocks(f[1..]));
    assert InPlace(f, 1);
    BlocksFrom(f, 1);
    ClearedAt(f[1..]);
    forall i | 0 <= i < |f| ensures AllBlocks(PrintBlocks(f))[i] == Filled(f, 0)[i] {
      if i > 0 {
        assert f[1..][i - 1] == f[i];
      }
    }
  }

  lemma {:induction false} TargetOf(ts: seq<Terminator>, k: nat)
    requires k < |ts| && !ts[k].Return?
    ensures ts[k].target in Targets(ts)
  {
    if k < |ts| - 1 {
      TargetOf(ts[..|ts| - 1], k);
    }
  }

  lemma TargetsAreFound(f: Function)
    requires WellNamed(f)
    requires forall i :: 0 <= i < |f| ==> IsTerminated(f[i])
    ensures TargetsExist(Filled(f, |f|))
  {
    var g := Filled(f, |f|);
    forall i, k | 0 <= i < |g| && 0 <= k < |g[i].terminators| && !g[i].terminators[k].Return?
      ensures Find(g, g[i].terminators[k].target).Ok?
    {
      TargetOf(f[i].terminators, k);
      TargetsOfTerminated(f[i]);
      var t := f[i].terminators[k].target;
      assert t in f[i].successors;
      var j :| 0 <= j < |f| && f[j].name == t;
      assert g[j].name == t;
      FindUnique(g, j);
    }
  }

  lemma {:induction false} TargetsConcat(a: seq<Terminator>, b: seq<Terminator>)
    ensures Targets(a + b) == Targets(a) + Targets(b)
  {
    if b == [] {
      assert a + b == a;
    } else {
      assert (a + b)[..|a + b| - 1] == a + b[..|b| - 1];
      TargetsConcat(a, b[..|b| - 1]);
    }
  }

  /** The targets of a block's terminators are its successors, unless it has no branch. */
  lemma TargetsOfTerminated(b: Block)
    requires IsTerminated(b)
    ensures var branches := b.successors != [] && b.successors != [Exit(b.name.fn)];
            var ts := b.terminators;
            && Targets(ts) == (if branches then b.successors else [])
            && (branches <==> ts != [] && ts[|ts| - 1].Jump?)
  {
    var op :| b.terminators == Returns(b.name) + Branches(b.name.fn, b.successors, op);
    TargetsConcat(Returns(b.name), Branches(b.name.fn, b.successors, op));
    assert [Return][..0] == [] && Targets(Returns(b.name)) == [];
    TargetsOfBranches(b.name.fn, b.successors, op);
  }

  lemma TargetsOfBranches(fn: nat, s: seq<Name>, op: string)
    requires |s| <= 2
    ensures var ts := Branches(fn, s, op);
            && Targets(ts) == (if s == [Exit(fn)] then [] else s)
            && (ts != [] <==> s != [] && s != [Exit(fn)]) && (ts != [] ==> ts[|ts| - 1].Jump?)
  {
    if |s| == 1 {
      assert s == [s[0]] && [Jump(s[0])][..0] == [];
    } else if |s| == 2 {
      var ts := [CondBranch(op, s[0]), Jump(s[1])];
      assert ts[..1] == [CondBranch(op, s[0])] && ts[..1][..0] == [];
      assert Targets(ts[..1]) == [s[0]];
      assert s == [s[0], s[1]];
    }
  }

  /** Where a block has no branch, the next one of the test case follows. */
  ghost predicate FallsThroughAt(f: Function, i: nat)
    requires i < |f|
  {
    f[i].successors == [] || f[i].successors == ExitOf(f[i].name) ==> f[i].successors == NextOf(f, i)
  }

  function ExitOf(name: Name): seq<Name> {
    if name.CaseEnter? || name.CaseExit? then [] else [Exit(name.fn)]
  }

  function NextOf(f: Function, i: nat): seq<Name>
    requires i < |f|
  {
    if i + 1 < |f| then [f[i + 1].name] else []
  }

  /** So each block that leads nowhere has to be the last one, and each that only leads to the exit of its
      function has to come right before it. */
  ghost predicate FallsThroughToExit(f: Function) {
    forall i :: 0 <= i < |f| ==> FallsThroughAt(f, i)
  }

  lemma SuccessorsOfTerminated(f: Function, i: nat)
    requires i < |f| && IsTerminated(f[i])
    ensures Successors(Filled(f, |f|), i) ==
            if f[i].successors != [] && f[i].successors != [Exit(f[i].name.fn)] then f[i].successors else NextOf(f, i)
  {
    TargetsOfTerminated(f[i]);
    assert Filled(f, |f|)[i].terminators == f[i].terminators;
    assert i + 1 < |f| ==> Filled(f, |f|)[i + 1].name == f[i + 1].name;
  }

  /** A test case with its terminators is read back as it was printed, block by block with the same
      successors, exactly when each block without a branch is followed by its successor. */
  lemma PrintParse(f: Function)
    requires WellNamed(f)
    requires forall i :: 0 <= i < |f| ==> IsTerminated(f[i])
    ensures Parse(Print(f)) == Ok(f) <==> FallsThroughToExit(f)
  {
    PrintedIsParsed(f);
    forall i | 0 <= i < |f| ensures Connected(Filled(f, |f|))[i] == f[i] <==> FallsThroughAt(f, i) {
      BlockReadBack(f, i);
    }
    SameBlocks(Connected(Filled(f, |f|)), f);
  }

  lemma BlockReadBack(f: Function, i: nat)
    requires i < |f| && IsTerminated(f[i])
    ensures Connected(Filled(f, |f|))[i] == f[i] <==> FallsThroughAt(f, i)
  {
    SuccessorsOfTerminated(f, i);
    assert Connected(Filled(f, |f|))[i] == f[i].(successors := Successors(Filled(f, |f|), i));
  }

  lemma SameBlocks(g: Function, f: Function)
    requires |g| == |f|
    ensures g == f <==> forall i {:trigger f[i]} :: 0 <= i < |f| ==> g[i] == f[i]
  {
  }

  lemma ForwardIsWellNamed(f: Function)
    requires IsForward(0, f)
    ensures WellNamed(f)
  {
    forall i | 0 < i < |f| ensures InPlace(f, i) {
      assert f[i - 1].name == NameAt(0, |f| - 2, i - 1);
    }
    forall i, t | 0 <= i < |f| && t in f[i].successors ensures exists j :: 0 <= j < |f| && f[j].name == t {
      assert i < |f| - 1 ==> IsForwardBlock(0, f, i);
    }
  }

  /** So the main function is, as the generator makes it: it is all that a generated test case has. */
  lemma GeneratedRoundTrip(f: Function)
    requires IsForward(0, f) && forall i :: 0 <= i < |f| ==> IsTerminated(f[i])
    ensures Parse(Print(f)) == Ok(f)
  {
    ForwardIsWellNamed(f);
    forall i | 0 <= i < |f| ensures FallsThroughAt(f, i) {
      assert i < |f| - 1 ==> IsForwardBlock(0, f, i);
    }
    PrintParse(f);
  }

  /** With a second function it would not be: an exit leads nowhere, and is read back as falling through to the
      entry of the next function, with or without a return. */
  lemma SecondFunctionIsJoined(f: Function, i: nat)
    requires WellNamed(f) && forall j :: 0 <= j < |f| ==> IsTerminated(f[j])
    requires i + 1 < |f| && f[i].name.Exit? && f[i].successors == []
    ensures Parse(Print(f)) != Ok(f)
  {
    PrintParse(f);
    assert !FallsThroughAt(f, i);
  }
}

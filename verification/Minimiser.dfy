/** The postprocessor: walk a violating test case backwards, change it at one line at a time and keep
    each change after which the violation is still there. */
module Minimiser {
  /** A line of the test case, by how the walk treats it: it stops at the header, leaves blank lines,
      sandboxing code, fences, labels and directives alone, and tries its change at the others. */
  datatype Line = Header(text: string) | Fence | Protected(text: string) | Removable(text: string)

  function Classify(text: string): Line {
    var s := Strip(text);
    if s == ".test_case_enter:" then Header(text)
    else if text == "LFENCE\n" then Fence
    else if s == "" || Occurs("instrumentation", s) || Occurs("LFENCE", s) || s[0] == '.' then Protected(text)
    else Removable(text)
  }

  predicate IsSpace(c: char) {
    c in " \t\n\r"
  }

  function Strip(s: string): string
    decreases |s|
  {
    if s == "" then ""
    else if IsSpace(s[0]) then Strip(s[1..])
    else if IsSpace(s[|s| - 1]) then Strip(s[..|s| - 1])
    else s
  }

  predicate OccursAt(part: string, s: string, i: nat) {
    i + |part| <= |s| && s[i..i + |part|] == part
  }

  predicate Occurs(part: string, s: string) {
    exists i :: 0 <= i <= |s| && OccursAt(part, s, i)
  }

  function Text(line: Line): string {
    if line.Fence? then "LFENCE\n" else line.text
  }

  /** The lines of a file, and the file of the lines. */
  function LinesOf(texts: seq<string>): (r: seq<Line>)
    ensures |r| == |texts| && forall i {:trigger r[i]} :: 0 <= i < |r| ==> r[i] == Classify(texts[i])
  {
    seq(|texts|, i requires 0 <= i < |texts| => Classify(texts[i]))
  }

  function FileOf(lines: seq<Line>): (r: seq<string>)
    ensures |r| == |lines| && forall i {:trigger r[i]} :: 0 <= i < |r| ==> r[i] == Text(lines[i])
  {
    seq(|lines|, i requires 0 <= i < |lines| => Text(lines[i]))
  }

  lemma TextOfClassified(text: string)
    ensures Text(Classify(text)) == text
  {
  }

  /** Classifying the lines loses nothing of the file. */
  lemma FileOfLines(texts: seq<string>)
    ensures FileOf(LinesOf(texts)) == texts
  {
    forall i | 0 <= i < |texts| ensures FileOf(LinesOf(texts))[i] == texts[i] {
      TextOfClassified(texts[i]);
    }
  }

  // ----- The walk -----

  datatype Modifier = SkipInstruction | PushFence

  /** What becomes of a line when the change is made there. */
  function Change(m: Modifier, line: Line): seq<Line> {
    if m.SkipInstruction? then [] else [Fence, line]
  }

  /** The modifiers: the whole test case with one line changed. */
  function Modify(m: Modifier, lines: seq<Line>, i: nat): seq<Line>
    requires i < |lines|
  {
    if m.SkipInstruction? then lines[..i] + lines[i + 1..] else lines[..i] + [Fence] + lines[i..]
  }

  predicate HasHeader(lines: seq<Line>) {
    exists h :: 0 <= h < |lines| && lines[h].Header?
  }

  /** The last header, where the walk stops. */
  function LastHeader(lines: seq<Line>): (h: nat)
    requires HasHeader(lines)
    ensures h < |lines| && lines[h].Header? && forall i :: h < i < |lines| ==> !lines[i].Header?
  {
    if lines[|lines| - 1].Header? then |lines| - 1 else LastHeader(lines[..|lines| - 1])
  }

  /** A walk: the modifier, the oracle, which answers the same for the same test case, and the lines up to
      the header, which are never touched. */
  datatype Probe = Probe(m: Modifier, violates: seq<Line> -> bool, head: seq<Line>) {
    predicate Violates(body: seq<Line>) {
      violates(head + body)
    }

    /** What a line becomes, given the lines before it and those behind it. */
    function Decide(before: seq<Line>, line: Line, done: seq<Line>): seq<Line> {
      if line.Removable? && Violates(before + (Change(m, line) + done)) then Change(m, line) else [line]
    }

    /** The lines still to be walked as the walk leaves them, given those behind them. */
    function Walk(todo: seq<Line>, done: seq<Line>): seq<Line> {
      if todo == [] then []
      else
        var c := |todo| - 1;
        var line := Decide(todo[..c], todo[c], done);
        Walk(todo[..c], line + done) + line
    }
  }

  /** One step of the walk. */
  lemma WalkOne(p: Probe, lines: seq<Line>, h: nat, c: nat, done: seq<Line>)
    requires h < c < |lines| && p.head == lines[..h + 1]
    ensures var d := p.Decide(lines[h + 1..c], lines[c], done);
            && p.Walk(lines[h + 1..c + 1], done) + done == p.Walk(lines[h + 1..c], d + done) + (d + done)
            && (lines[c].Removable? ==>
                d == if p.violates(lines[..c] + (Change(p.m, lines[c]) + done)) then Change(p.m, lines[c])
                     else [lines[c]])
            && (!lines[c].Removable? ==> d == [lines[c]])
  {
    var before := lines[h + 1..c];
    var d := p.Decide(before, lines[c], done);
    assert lines[h + 1..c + 1][..|before|] == before;
    assert p.Walk(before, d + done) + d + done == p.Walk(before, d + done) + (d + done);
    assert p.head + (before + (Change(p.m, lines[c]) + done)) == lines[..c] + (Change(p.m, lines[c]) + done);
  }

  /** The oracle for files, asked about lines. */
  function OnLines(violates: seq<string> -> bool): seq<Line> -> bool {
    (lines: seq<Line>) => violates(FileOf(lines))
  }

  /** The test case that a walk over the lines behind the last header leaves. */
  function Walked(m: Modifier, violates: seq<Line> -> bool, lines: seq<Line>): seq<Line>
    requires HasHeader(lines)
  {
    var h := LastHeader(lines);
    lines[..h + 1] + Probe(m, violates, lines[..h + 1]).Walk(lines[h + 1..], [])
  }

  function Probed(m: Modifier, violates: seq<string> -> bool, texts: seq<string>): seq<string>
    requires HasHeader(LinesOf(texts))
  {
    FileOf(Walked(m, OnLines(violates), LinesOf(texts)))
  }

  /** The postprocessor: the lines behind the last header are walked, the others stay. */
  method ProbeTestCase(m: Modifier, violates: seq<string> -> bool, texts: seq<string>) returns (result: seq<string>)
    requires HasHeader(LinesOf(texts))
    ensures result == Probed(m, violates, texts)
  {
    var instructions := ProbeLines(m, OnLines(violates), LinesOf(texts));
    result := FileOf(instructions);
  }

  /** Its loop. */
  method ProbeLines(m: Modifier, violates: seq<Line> -> bool, lines: seq<Line>) returns (instructions: seq<Line>)
    requires HasHeader(lines)
    ensures instructions == Walked(m, violates, lines)
  {
    ghost var h := LastHeader(lines);
    ghost var at := WholeWalk(Probe(m, violates, lines[..h + 1]), lines, h);
    instructions := ProbeUpTo(m, violates, lines, h, at);
  }

  /** The loop: down from the last line until the header is reached. */
  method ProbeUpTo(m: Modifier, violates: seq<Line> -> bool, lines: seq<Line>, ghost h: nat, ghost at: seq<seq<Line>>)
    returns (instructions: seq<Line>)
    requires IsWalk(m, violates, lines, h, at) && h + |at| == |lines| && at != [] && at[|at| - 1] == lines
    requires lines[h].Header? && forall i :: h < i < |lines| ==> !lines[i].Header?
    ensures instructions == at[0]
  {
    instructions := lines;
    var cursor := |instructions|;
    while true
      invariant h < cursor <= |lines| && instructions == at[cursor - h - 1]
      decreases cursor
    {
      cursor := cursor - 1;
      assert cursor > h ==> TurnsAt(m, violates, lines, h, at, cursor - h);
      var line := instructions[cursor];
      if line.Header? {
        break;
      }
      instructions := TakeTurn(m, violates, instructions, cursor);
    }
  }

  function Turned(m: Modifier, violates: seq<Line> -> bool, now: seq<Line>, c: nat): seq<Line>
    requires c < |now|
  {
    if now[c].Removable? && violates(Modify(m, now, c)) then Modify(m, now, c) else now
  }

  /** Preserve protected lines; at the others, keep the change if the violation is still there. */
  method TakeTurn(m: Modifier, violates: seq<Line> -> bool, now: seq<Line>, c: nat) returns (next: seq<Line>)
    requires c < |now|
    ensures next == Turned(m, violates, now, c)
  {
    if !now[c].Removable? {
      return now;
    }
    var tmp := Modify(m, now, c);
    next := if violates(tmp) then tmp else now;
  }

  /** One turn of the loop takes the test case from one state to the next. */
  ghost predicate TurnsAt(m: Modifier, violates: seq<Line> -> bool, lines: seq<Line>, h: nat,
                          at: seq<seq<Line>>, j: nat)
    requires 0 < j < |at| && h + j < |lines|
  {
    var now, c := at[j], h + j;
    && c < |now| && now[c] == lines[c]
    && at[j - 1] == Turned(m, violates, now, c)
  }

  /** All the states of the loop, the last one first. */
  ghost predicate IsWalk(m: Modifier, violates: seq<Line> -> bool, lines: seq<Line>, h: nat, at: seq<seq<Line>>) {
    && h + |at| <= |lines|
    && (forall j :: 0 <= j < |at| ==> h < |at[j]| && at[j][h] == lines[h])
    && forall j :: 0 < j < |at| ==> TurnsAt(m, violates, lines, h, at, j)
  }

  lemma AddState(m: Modifier, violates: seq<Line> -> bool, lines: seq<Line>, h: nat,
                 rest: seq<seq<Line>>, now: seq<Line>)
    requires IsWalk(m, violates, lines, h, rest) && rest != [] && h + |rest| < |lines|
    requires h + |rest| < |now| && now[h] == lines[h] && now[h + |rest|] == lines[h + |rest|]
    requires rest[|rest| - 1] == Turned(m, violates, now, h + |rest|)
    ensures IsWalk(m, violates, lines, h, rest + [now])
  {
    var at := rest + [now];
    forall j | 0 < j < |at| ensures TurnsAt(m, violates, lines, h, at, j) {
      if j < |rest| {
        assert TurnsAt(m, violates, lines, h, rest, j);
        assert at[j] == rest[j] && at[j - 1] == rest[j - 1];
      }
    }
  }

  lemma TurnedKeeps(m: Modifier, violates: seq<Line> -> bool, now: seq<Line>, c: nat)
    requires c < |now|
    ensures |Turned(m, violates, now, c)| >= c && Turned(m, violates, now, c)[..c] == now[..c]
  {
  }

  /** The states of the loop from a cursor on. */
  lemma {:induction false} StatesFrom(m: Modifier, violates: seq<Line> -> bool, lines: seq<Line>, h: nat,
                                       c: nat, now: seq<Line>)
      returns (at: seq<seq<Line>>)
    requires h < c <= |lines| && c <= |now| && forall i :: 0 <= i < c ==> now[i] == lines[i]
    ensures IsWalk(m, violates, lines, h, at) && |at| == c - h && at[c - h - 1] == now
    decreases c
  {
    if c == h + 1 {
      at := [now];
    } else {
      var next := Turned(m, violates, now, c - 1);
      TurnedKeeps(m, violates, now, c - 1);
      assert forall i :: 0 <= i < c - 1 ==> next[i] == next[..c - 1][i] == now[i];
      var rest := StatesFrom(m, violates, lines, h, c - 1, next);
      AddState(m, violates, lines, h, rest, now);
      at := rest + [now];
    }
  }

  lemma FewerStates(m: Modifier, violates: seq<Line> -> bool, lines: seq<Line>, h: nat, at: seq<seq<Line>>)
    requires IsWalk(m, violates, lines, h, at) && |at| > 1
    ensures IsWalk(m, violates, lines, h, at[..|at| - 1])
    ensures TurnsAt(m, violates, lines, h, at, |at| - 1)
  {
    var rest := at[..|at| - 1];
    forall j | 0 < j < |rest| ensures TurnsAt(m, violates, lines, h, rest, j) {
      assert TurnsAt(m, violates, lines, h, at, j);
    }
  }

  lemma StateBefore(p: Probe, lines: seq<Line>, h: nat, c: nat, done: seq<Line>, at: seq<seq<Line>>)
      returns (next: seq<Line>)
    requires h + 1 < c <= |lines| && p.head == lines[..h + 1]
    requires |at| == c - h && at[c - h - 1] == Now(lines, c, done)
    requires TurnsAt(p.m, p.violates, lines, h, at, c - h - 1)
    ensures at[c - h - 2] == Now(lines, c - 1, next)
    ensures Ahead(p, lines, h, c, done) == Ahead(p, lines, h, c - 1, next)
  {
    next := WalkMoves(p, lines, h, c - 1, done);
  }

  /** The last of them is the result of the walk. */
  lemma {:induction false} StatesEnd(p: Probe, lines: seq<Line>, h: nat, c: nat, done: seq<Line>, at: seq<seq<Line>>)
    requires h < c <= |lines| && p.head == lines[..h + 1]
    requires IsWalk(p.m, p.violates, lines, h, at) && |at| == c - h && at[c - h - 1] == Now(lines, c, done)
    ensures at[0] == lines[..h + 1] + Ahead(p, lines, h, c, done)
    decreases c
  {
    if c == h + 1 {
      WalkEnds(p, lines, h, done);
    } else {
      FewerStates(p.m, p.violates, lines, h, at);
      var next := StateBefore(p, lines, h, c, done, at);
      var rest := at[..|at| - 1];
      assert rest[c - h - 2] == at[c - h - 2] && rest[0] == at[0];
      StatesEnd(p, lines, h, c - 1, next, rest);
    }
  }

  lemma WholeWalk(p: Probe, lines: seq<Line>, h: nat) returns (at: seq<seq<Line>>)
    requires h < |lines| && p.head == lines[..h + 1]
    ensures IsWalk(p.m, p.violates, lines, h, at) && |at| == |lines| - h
    ensures at[|lines| - h - 1] == lines
    ensures at[0] == lines[..h + 1] + p.Walk(lines[h + 1..], [])
  {
    WalkStarts(p, lines, h);
    at := StatesFrom(p.m, p.violates, lines, h, |lines|, lines);
    StatesEnd(p, lines, h, |lines|, [], at);
  }

  /** The test case when the walk has come to a cursor. */
  function Now(lines: seq<Line>, c: nat, done: seq<Line>): (r: seq<Line>)
    requires c <= |lines|
    ensures |r| >= c && (c > 0 ==> r[c - 1] == lines[c - 1])
  {
    lines[..c] + done
  }

  /** What becomes of its lines behind the header. */
  function Ahead(p: Probe, lines: seq<Line>, h: nat, c: nat, done: seq<Line>): seq<Line>
    requires h < c <= |lines|
  {
    p.Walk(lines[h + 1..c], done) + done
  }

  lemma WalkStarts(p: Probe, lines: seq<Line>, h: nat)
    requires h < |lines|
    ensures Now(lines, |lines|, []) == lines
    ensures Ahead(p, lines, h, |lines|, []) == p.Walk(lines[h + 1..], [])
  {
    assert lines[h + 1..|lines|] == lines[h + 1..];
  }

  lemma WalkEnds(p: Probe, lines: seq<Line>, h: nat, done: seq<Line>)
    requires h < |lines|
    ensures Now(lines, h + 1, done) == lines[..h + 1] + Ahead(p, lines, h, h + 1, done)
  {
    assert [] + done == done;
  }

  /** One turn of the loop: the test case with the line decided. */
  lemma WalkMoves(p: Probe, lines: seq<Line>, h: nat, c: nat, done: seq<Line>) returns (next: seq<Line>)
    requires h < c < |lines| && p.head == lines[..h + 1]
    ensures Ahead(p, lines, h, c + 1, done) == Ahead(p, lines, h, c, next)
    ensures Now(lines, c, next) == Turned(p.m, p.violates, Now(lines, c + 1, done), c)
  {
    next := p.Decide(lines[h + 1..c], lines[c], done) + done;
    WalkOne(p, lines, h, c, done);
    ModifyIsChange(p.m, lines, c, done);
  }

  lemma ModifyIsChange(m: Modifier, lines: seq<Line>, c: nat, done: seq<Line>)
    requires c < |lines|
    ensures var now := lines[..c + 1] + done;
            && now == lines[..c] + ([lines[c]] + done)
            && Modify(m, now, c) == lines[..c] + (Change(m, lines[c]) + done)
  {
    var now := lines[..c + 1] + done;
    assert lines[..c + 1] == lines[..c] + [lines[c]];
    assert now == lines[..c] + ([lines[c]] + done);
    Split(lines[..c], [lines[c]] + done);
    Split(lines[..c + 1], done);
    if m.PushFence? {
      assert lines[..c] + [Fence] + ([lines[c]] + done) == lines[..c] + ([Fence, lines[c]] + done);
    }
  }

  lemma Split<T>(a: seq<T>, b: seq<T>)
    ensures (a + b)[..|a|] == a && (a + b)[|a|..] == b
  {
  }

  // ----- Subsequences -----

  /** The first sequence arises from the second by leaving elements out. */
  ghost predicate Within<T>(a: seq<T>, b: seq<T>) {
    if a == [] then true
    else b != [] && ((a[0] == b[0] && Within(a[1..], b[1..])) || Within(a, b[1..]))
  }

  lemma {:induction false} WithinSelf<T>(a: seq<T>)
    ensures Within(a, a)
  {
    if a != [] {
      WithinSelf(a[1..]);
    }
  }

  lemma {:induction false} WithinBehind<T>(x: seq<T>, a: seq<T>, b: seq<T>)
    requires Within(a, b)
    ensures Within(x + a, x + b) && Within(a, x + b)
  {
    if x == [] {
      assert x + a == a && x + b == b;
    } else {
      WithinBehind(x[1..], a, b);
      assert (x + a)[1..] == x[1..] + a && (x + b)[1..] == x[1..] + b;
    }
  }

  lemma {:induction false} WithinBefore<T>(a: seq<T>, b: seq<T>, y: seq<T>)
    requires Within(a, b)
    ensures Within(a + y, b + y)
    decreases |b|
  {
    if b == [] {
      WithinSelf(y);
      assert a + y == y && b + y == y;
    } else {
      assert (b + y)[1..] == b[1..] + y;
      if a == [] {
        WithinBefore(a, b[1..], y);
        assert a + y == y;
        WithinBehind([b[0]], y, b[1..] + y);
        assert [b[0]] + (b[1..] + y) == b + y;
      } else {
        assert (a + y)[1..] == a[1..] + y;
        if a[0] == b[0] && Within(a[1..], b[1..]) {
          WithinBefore(a[1..], b[1..], y);
        } else {
          WithinBefore(a, b[1..], y);
        }
      }
    }
  }

  lemma WithinJoined<T>(a: seq<T>, a': seq<T>, b: seq<T>, b': seq<T>)
    requires Within(a, a') && Within(b, b')
    ensures Within(a + b, a' + b')
  {
    WithinBefore(a, a', b);
    WithinBehind(a', b, b');
    WithinChain(a + b, a' + b, a' + b');
  }

  lemma {:induction false} WithinChain<T>(a: seq<T>, b: seq<T>, c: seq<T>)
    requires Within(a, b) && Within(b, c)
    ensures Within(a, c)
    decreases |c|
  {
    if a != [] {
      if b[0] == c[0] && Within(b[1..], c[1..]) {
        if a[0] == b[0] && Within(a[1..], b[1..]) {
          WithinChain(a[1..], b[1..], c[1..]);
        } else {
          WithinChain(a, b[1..], c[1..]);
        }
      } else {
        WithinChain(a, b, c[1..]);
      }
    }
  }

  // ----- Every walk -----

  /** The walk keeps the violation. */
  lemma {:induction false} ViolationIsKept(p: Probe, todo: seq<Line>, done: seq<Line>)
    requires p.Violates(todo + done)
    ensures p.Violates(p.Walk(todo, done) + done)
    decreases |todo|
  {
    if todo != [] {
      var c := |todo| - 1;
      var line := p.Decide(todo[..c], todo[c], done);
      assert todo + done == todo[..c] + ([todo[c]] + done);
      ViolationIsKept(p, todo[..c], line + done);
      var r := p.Walk(todo[..c], line + done);
      assert r + (line + done) == r + line + done;
    }
  }

  // ----- Filters -----

  ghost function Filtered(keep: Line -> bool, lines: seq<Line>): seq<Line> {
    if lines == [] then []
    else Filtered(keep, lines[..|lines| - 1]) + (if keep(lines[|lines| - 1]) then [lines[|lines| - 1]] else [])
  }

  ghost function ProtectedOf(lines: seq<Line>): seq<Line> {
    Filtered((l: Line) => !l.Removable?, lines)
  }

  ghost function Unfenced(lines: seq<Line>): seq<Line> {
    Filtered((l: Line) => !l.Fence?, lines)
  }

  lemma {:induction false} FilteredConcat(keep: Line -> bool, a: seq<Line>, b: seq<Line>)
    ensures Filtered(keep, a + b) == Filtered(keep, a) + Filtered(keep, b)
  {
    if b == [] {
      assert a + b == a;
    } else {
      var n := |b| - 1;
      assert (a + b)[..|a| + n] == a + b[..n];
      FilteredConcat(keep, a, b[..n]);
    }
  }

  /** A filter that does not see the change of a removable line does not see what the walk did. */
  lemma {:induction false} WalkUnseen(keep: Line -> bool, p: Probe, todo: seq<Line>, done: seq<Line>)
    requires forall l: Line :: l.Removable? ==> Filtered(keep, Change(p.m, l)) == Filtered(keep, [l])
    ensures Filtered(keep, p.Walk(todo, done)) == Filtered(keep, todo)
    decreases |todo|
  {
    if todo != [] {
      var c := |todo| - 1;
      var line := p.Decide(todo[..c], todo[c], done);
      var r := p.Walk(todo[..c], line + done);
      WalkUnseen(keep, p, todo[..c], line + done);
      SameBehind(keep, r, todo[..c], line, [todo[c]]);
      assert todo == todo[..c] + [todo[c]];
    }
  }

  lemma SameBehind(keep: Line -> bool, a: seq<Line>, a': seq<Line>, b: seq<Line>, b': seq<Line>)
    requires Filtered(keep, a) == Filtered(keep, a') && Filtered(keep, b) == Filtered(keep, b')
    ensures Filtered(keep, a + b) == Filtered(keep, a' + b')
  {
    FilteredConcat(keep, a, b);
    FilteredConcat(keep, a', b');
  }

  lemma SkipUnseen(l: Line)
    requires l.Removable?
    ensures ProtectedOf([l]) == ProtectedOf(Change(SkipInstruction, l))
  {
    assert [l][..0] == [];
  }

  lemma PushUnseen(l: Line)
    ensures Unfenced([l]) == Unfenced(Change(PushFence, l))
  {
    FilteredConcat((x: Line) => !x.Fence?, [Fence], [l]);
    assert [Fence] + [l] == [Fence, l] && [Fence][..0] == [];
  }

  // ----- Skipping instructions -----

  lemma SkippedKeepsProtected(p: Probe, todo: seq<Line>, done: seq<Line>)
    requires p.m.SkipInstruction?
    ensures ProtectedOf(p.Walk(todo, done)) == ProtectedOf(todo)
  {
    forall l: Line | l.Removable? ensures ProtectedOf(Change(SkipInstruction, l)) == ProtectedOf([l]) {
      SkipUnseen(l);
    }
    WalkUnseen((l: Line) => !l.Removable?, p, todo, done);
  }

  lemma {:induction false} SkippedIsWithin(p: Probe, todo: seq<Line>, done: seq<Line>)
    requires p.m.SkipInstruction?
    ensures Within(p.Walk(todo, done), todo)
    decreases |todo|
  {
    if todo != [] {
      var c := |todo| - 1;
      var line := p.Decide(todo[..c], todo[c], done);
      SkippedIsWithin(p, todo[..c], line + done);
      WithinSelf([todo[c]]);
      WithinJoined(p.Walk(todo[..c], line + done), todo[..c], line, [todo[c]]);
      assert todo == todo[..c] + [todo[c]];
    }
  }

  /** A test case keeps a violation when unprotected lines are put back. */
  ghost predicate IsMonotone(p: Probe) {
    forall a: seq<Line>, b: seq<Line> {:trigger Within(a, b)} ::
      Within(a, b) && ProtectedOf(a) == ProtectedOf(b) && p.Violates(a) ==> p.Violates(b)
  }

  /** What the walk has left of the lines before a kept one does not show the violation without it. */
  lemma KeptIsNeeded(p: Probe, before: seq<Line>, done: seq<Line>, after: seq<Line>)
    requires IsMonotone(p) && !p.Violates(before + done)
    requires Within(after, before) && ProtectedOf(after) == ProtectedOf(before)
    ensures !p.Violates(after + done)
  {
    WithinBefore(after, before, done);
    FilteredConcat((l: Line) => !l.Removable?, after, done);
    FilteredConcat((l: Line) => !l.Removable?, before, done);
  }

  /** No removable line the walk has passed and kept can go. */
  lemma {:induction false} NoLineCanGo(p: Probe, todo: seq<Line>, done: seq<Line>, k: nat)
    requires p.m.SkipInstruction? && IsMonotone(p)
    requires var r := p.Walk(todo, done);
             k < |r| && r[k].Removable?
    ensures var r := p.Walk(todo, done);
            !p.Violates(r[..k] + (r[k + 1..] + done))
    decreases |todo|
  {
    var r := p.Walk(todo, done);
    var c := |todo| - 1;
    var line := p.Decide(todo[..c], todo[c], done);
    var f := p.Walk(todo[..c], line + done);
    if k < |f| {
      NoLineCanGo(p, todo[..c], line + done, k);
      assert r == f + line;
      assert r[..k] == f[..k] && r[k] == f[k];
      assert r[k + 1..] + done == f[k + 1..] + (line + done);
    } else {
      assert line == [todo[c]] && k == |f|;
      SkippedIsWithin(p, todo[..c], line + done);
      SkippedKeepsProtected(p, todo[..c], line + done);
      assert [] + done == done;
      KeptIsNeeded(p, todo[..c], done, f);
      assert r[..k] == f && r[k + 1..] + done == done;
    }
  }

  /** Minimising: the violation is still there, lines have only been left out, all protected ones are
      there in order, and for a monotone oracle every removable line behind the header is needed. */
  lemma MinimisedIsMinimal(p: Probe, body: seq<Line>)
    requires p.m.SkipInstruction? && p.Violates(body)
    ensures var r := p.Walk(body, []);
            && p.Violates(r) && Within(r, body) && ProtectedOf(r) == ProtectedOf(body)
            && (IsMonotone(p) ==>
                forall k :: 0 <= k < |r| && r[k].Removable? ==> !p.Violates(Modify(SkipInstruction, r, k)))
  {
    var r := p.Walk(body, []);
    assert body + [] == body && r + [] == r;
    ViolationIsKept(p, body, []);
    SkippedIsWithin(p, body, []);
    SkippedKeepsProtected(p, body, []);
    if IsMonotone(p) {
      forall k | 0 <= k < |r| && r[k].Removable? ensures !p.Violates(Modify(SkipInstruction, r, k)) {
        NoLineCanGo(p, body, [], k);
        assert r[..k] + (r[k + 1..] + []) == Modify(SkipInstruction, r, k);
      }
    }
  }

  // ----- Pushing fences -----

  lemma FencedKeepsUnfenced(p: Probe, todo: seq<Line>, done: seq<Line>)
    requires p.m.PushFence?
    ensures Unfenced(p.Walk(todo, done)) == Unfenced(todo)
  {
    forall l: Line | l.Removable? ensures Unfenced(Change(PushFence, l)) == Unfenced([l]) {
      PushUnseen(l);
    }
    WalkUnseen((l: Line) => !l.Fence?, p, todo, done);
  }

  lemma {:induction false} FencedIsAround(p: Probe, todo: seq<Line>, done: seq<Line>)
    requires p.m.PushFence?
    ensures Within(todo, p.Walk(todo, done))
    decreases |todo|
  {
    if todo != [] {
      var c := |todo| - 1;
      var line := p.Decide(todo[..c], todo[c], done);
      FencedIsAround(p, todo[..c], line + done);
      WithinSelf([todo[c]]);
      assert [Fence, todo[c]][1..] == [todo[c]];
      WithinJoined(todo[..c], p.Walk(todo[..c], line + done), [todo[c]], line);
      assert todo == todo[..c] + [todo[c]];
    }
  }

  /** A test case keeps a violation when fences are taken out. */
  ghost predicate IsAntitone(p: Probe) {
    forall a: seq<Line>, b: seq<Line> {:trigger Within(a, b)} ::
      Within(a, b) && Unfenced(a) == Unfenced(b) && p.Violates(b) ==> p.Violates(a)
  }

  lemma UnfencedIsFull(p: Probe, before: seq<Line>, done: seq<Line>, after: seq<Line>)
    requires IsAntitone(p) && !p.Violates(before + done)
    requires Within(before, after) && Unfenced(after) == Unfenced(before)
    ensures !p.Violates(after + done)
  {
    WithinBefore(before, after, done);
    FilteredConcat((l: Line) => !l.Fence?, after, done);
    FilteredConcat((l: Line) => !l.Fence?, before, done);
  }

  /** A line that was left without a fence: with one, the violation would be gone, and still is after the
      walk over the lines before it. */
  lemma LeftWithoutFence(p: Probe, before: seq<Line>, line: Line, done: seq<Line>)
    requires p.m.PushFence? && IsAntitone(p)
    requires line.Removable? && p.Decide(before, line, done) == [line]
    ensures !p.Violates(p.Walk(before, [line] + done) + ([Fence, line] + done))
  {
    FencedIsAround(p, before, [line] + done);
    FencedKeepsUnfenced(p, before, [line] + done);
    UnfencedIsFull(p, before, [Fence, line] + done, p.Walk(before, [line] + done));
  }

  /** No removable line the walk has passed and left without a fence can get one. */
  lemma {:induction false} NoFenceFits(p: Probe, todo: seq<Line>, done: seq<Line>, k: nat)
    requires p.m.PushFence? && IsAntitone(p)
    requires var r := p.Walk(todo, done);
             k < |r| && r[k].Removable? && !(k > 0 && r[k - 1].Fence?)
    ensures !p.Violates(FencedAt(p.Walk(todo, done), done, k))
    decreases |todo|
  {
    var c := |todo| - 1;
    var line := p.Decide(todo[..c], todo[c], done);
    var f := p.Walk(todo[..c], line + done);
    assert p.Walk(todo, done) == f + line;
    if k < |f| {
      NoFenceFits(p, todo[..c], line + done, k);
      FencedBefore(f, line, done, k);
    } else {
      AtDecided(f, line, todo[c], k);
      LeftWithoutFence(p, todo[..c], todo[c], done);
      FencedBehind(f, todo[c], done);
    }
  }

  ghost function FencedAt(lines: seq<Line>, done: seq<Line>, k: nat): seq<Line>
    requires k <= |lines|
  {
    lines[..k] + ([Fence] + (lines[k..] + done))
  }

  lemma FencedBefore(f: seq<Line>, line: seq<Line>, done: seq<Line>, k: nat)
    requires k <= |f|
    ensures FencedAt(f + line, done, k) == FencedAt(f, line + done, k)
  {
    assert (f + line)[..k] == f[..k] && (f + line)[k..] + done == f[k..] + (line + done);
  }

  lemma FencedBehind(f: seq<Line>, l: Line, done: seq<Line>)
    ensures FencedAt(f + [l], done, |f|) == f + ([Fence, l] + done)
  {
    assert (f + [l])[..|f|] == f && [Fence] + ((f + [l])[|f|..] + done) == [Fence, l] + done;
  }

  lemma AtDecided(f: seq<Line>, line: seq<Line>, l: Line, k: nat)
    requires line == [l] || line == [Fence, l]
    requires |f| <= k < |f + line| && (f + line)[k].Removable? && !(k > 0 && (f + line)[k - 1].Fence?)
    ensures k == |f| && line == [l] && l.Removable?
  {
    assert (f + line)[|f|] == line[0];
  }

  /** A removable line without a fence before it: with a fence there, the violation is gone. */
  ghost predicate TakesNoFence(p: Probe, lines: seq<Line>, k: nat)
    requires k < |lines|
  {
    lines[k].Removable? && !(k > 0 && lines[k - 1].Fence?) ==> !p.Violates(Modify(PushFence, lines, k))
  }

  /** Pushing fences: the violation is still there, only fences have been put in, and for an antitone oracle
      no further unfenced line behind the header can get a fence. */
  lemma FencedIsMaximal(p: Probe, body: seq<Line>)
    requires p.m.PushFence? && p.Violates(body)
    ensures var r := p.Walk(body, []);
            && p.Violates(r) && Within(body, r) && Unfenced(r) == Unfenced(body)
            && (IsAntitone(p) ==>
                forall k :: 0 <= k < |r| ==> TakesNoFence(p, r, k))
  {
    var r := p.Walk(body, []);
    assert body + [] == body && r + [] == r;
    ViolationIsKept(p, body, []);
    FencedIsAround(p, body, []);
    FencedKeepsUnfenced(p, body, []);
    if IsAntitone(p) {
      forall k | 0 <= k < |r| ensures TakesNoFence(p, r, k) {
        if r[k].Removable? && !(k > 0 && r[k - 1].Fence?) {
          NoFenceFits(p, body, [], k);
          assert FencedAt(r, [], k) == Modify(PushFence, r, k);
        }
      }
    }
  }

  // ----- What a line is, by its text -----

  predicate IsBlank(text: string) {
    forall i :: 0 <= i < |text| ==> IsSpace(text[i])
  }

  /** The first character that is no space is a dot. */
  predicate StartsWithDot(text: string) {
    exists i :: 0 <= i < |text| && text[i] == '.' && forall j :: 0 <= j < i ==> IsSpace(text[j])
  }

  /** The lines at which a change is tried: not blank, no label or directive, and the text mentions neither
      instrumentation nor a fence. */
  predicate IsOpen(text: string) {
    !IsBlank(text) && !StartsWithDot(text) && !Occurs("instrumentation", text) && !Occurs("LFENCE", text)
  }

  lemma {:induction false} StripMeans(s: string) returns (before: string, behind: string)
    ensures s == before + Strip(s) + behind && IsBlank(before) && IsBlank(behind)
    ensures Strip(s) != "" ==> !IsSpace(Strip(s)[0]) && !IsSpace(Strip(s)[|Strip(s)| - 1])
    decreases |s|
  {
    if s == "" || (!IsSpace(s[0]) && !IsSpace(s[|s| - 1])) {
      before, behind := "", "";
    } else if IsSpace(s[0]) {
      before, behind := StripMeans(s[1..]);
      Regroup([s[0]], before, Strip(s[1..]), behind);
      before := [s[0]] + before;
      assert s == [s[0]] + s[1..];
    } else {
      before, behind := StripMeans(s[..|s| - 1]);
      behind := behind + [s[|s| - 1]];
    }
  }

  lemma Regroup(a: string, b: string, c: string, d: string)
    ensures a + (b + c + d) == a + b + c + d
  {
  }

  /** A part that neither starts nor ends with a space occurs in a text exactly if it occurs in the stripped text. */
  lemma OccursStripped(part: string, before: string, s: string, behind: string)
    requires part != "" && !IsSpace(part[0]) && !IsSpace(part[|part| - 1])
    requires IsBlank(before) && IsBlank(behind)
    ensures Occurs(part, before + s + behind) <==> Occurs(part, s)
  {
    var text := before + s + behind;
    if Occurs(part, s) {
      var i :| 0 <= i <= |s| && OccursAt(part, s, i);
      assert text[|before| + i..|before| + i + |part|] == s[i..i + |part|];
      assert OccursAt(part, text, |before| + i);
    }
    if Occurs(part, text) {
      var i :| 0 <= i <= |text| && OccursAt(part, text, i);
      var n := |part| - 1;
      assert text[i] == text[i..i + |part|][0] && text[i + n] == text[i..i + |part|][n];
      assert i >= |before| && i + n < |before| + |s|;
      assert text[i..i + |part|] == s[i - |before|..i - |before| + |part|];
      assert OccursAt(part, s, i - |before|);
    }
  }

  lemma DotStripped(before: string, s: string, behind: string)
    requires IsBlank(before) && IsBlank(behind) && (s != "" ==> !IsSpace(s[0]))
    ensures StartsWithDot(before + s + behind) <==> s != "" && s[0] == '.'
    ensures IsBlank(before + s + behind) <==> s == ""
  {
    var text := before + s + behind;
    if s != "" {
      assert text[|before|] == s[0];
      if s[0] == '.' {
        assert forall j :: 0 <= j < |before| ==> text[j] == before[j];
      }
    }
  }

  lemma {:induction false} StripOf(before: string, s: string, behind: string)
    requires IsBlank(before) && IsBlank(behind) && s != "" && !IsSpace(s[0]) && !IsSpace(s[|s| - 1])
    ensures Strip(before + s + behind) == s
    decreases |before| + |behind|
  {
    var text := before + s + behind;
    if before != "" {
      assert text[1..] == before[1..] + s + behind;
      StripOf(before[1..], s, behind);
    } else if behind != "" {
      assert text[..|text| - 1] == before + s + behind[..|behind| - 1];
      StripOf(before, s, behind[..|behind| - 1]);
    } else {
      assert text == s;
    }
  }

  ghost predicate IsHeaderText(text: string) {
    exists before: string, behind: string ::
      IsBlank(before) && IsBlank(behind) && text == before + ".test_case_enter:" + behind
  }

  /** Classification in terms of the text: the walk stops at the header line and tries its change at the open
      lines, all before that. */
  lemma ClassifyMeans(text: string)
    ensures Classify(text).Header? <==> IsHeaderText(text)
    ensures Classify(text).Removable? <==> IsOpen(text)
    ensures Classify(text).Fence? <==> text == "LFENCE\n"
  {
    var s := Strip(text);
    var before, behind := StripMeans(text);
    OccursStripped("instrumentation", before, s, behind);
    OccursStripped("LFENCE", before, s, behind);
    DotStripped(before, s, behind);
    if text == "LFENCE\n" {
      FenceText();
    }
    if IsHeaderText(text) {
      var x: string, y: string :| IsBlank(x) && IsBlank(y) && text == x + ".test_case_enter:" + y;
      StripOf(x, ".test_case_enter:", y);
    }
  }

  lemma FenceText()
    ensures Strip("LFENCE\n") == "LFENCE" && Occurs("LFENCE", "LFENCE\n")
  {
    StripOf("", "LFENCE", "\n");
    assert "" + "LFENCE" + "\n" == "LFENCE\n";
    assert OccursAt("LFENCE", "LFENCE\n", 0);
  }

  // ----- The files that come out -----

  /** The texts of a file that are not open to changes, in order. */
  ghost function ClosedTexts(texts: seq<string>): seq<string> {
    if texts == [] then []
    else
      var n := |texts| - 1;
      ClosedTexts(texts[..n]) + if IsOpen(texts[n]) then [] else [texts[n]]
  }

  /** The texts that are no fences as the walk puts in. */
  ghost function OtherThanFences(texts: seq<string>): seq<string> {
    if texts == [] then []
    else
      var n := |texts| - 1;
      OtherThanFences(texts[..n]) + if texts[n] == "LFENCE\n" then [] else [texts[n]]
  }

  /** Each line is what its text says. */
  ghost predicate AreClassified(lines: seq<Line>) {
    forall i {:trigger lines[i]} :: 0 <= i < |lines| ==> Classify(Text(lines[i])) == lines[i]
  }

  lemma {:induction false} WithinMembers<T>(a: seq<T>, b: seq<T>, x: T)
    requires Within(a, b) && x in a
    ensures x in b
    decreases |b|
  {
    if a[0] == b[0] && Within(a[1..], b[1..]) {
      if x != a[0] {
        WithinMembers(a[1..], b[1..], x);
      }
    } else {
      WithinMembers(a, b[1..], x);
    }
  }

  lemma {:induction false} FileWithin(a: seq<Line>, b: seq<Line>)
    requires Within(a, b)
    ensures Within(FileOf(a), FileOf(b))
    decreases |b|
  {
    if a != [] {
      assert FileOf(b)[1..] == FileOf(b[1..]) && FileOf(a)[1..] == FileOf(a[1..]);
      if a[0] == b[0] && Within(a[1..], b[1..]) {
        FileWithin(a[1..], b[1..]);
      } else {
        FileWithin(a, b[1..]);
      }
    }
  }

  lemma {:induction false} ClosedTextsOf(lines: seq<Line>)
    requires AreClassified(lines)
    ensures ClosedTexts(FileOf(lines)) == FileOf(ProtectedOf(lines))
  {
    if lines != [] {
      var n := |lines| - 1;
      ClosedTextsOf(lines[..n]);
      assert FileOf(lines)[..n] == FileOf(lines[..n]);
      ClassifyMeans(Text(lines[n]));
      assert FileOf(ProtectedOf(lines[..n]) + [lines[n]]) == FileOf(ProtectedOf(lines[..n])) + [Text(lines[n])];
    }
  }

  lemma {:induction false} OtherThanFencesOf(lines: seq<Line>)
    requires AreClassified(lines)
    ensures OtherThanFences(FileOf(lines)) == FileOf(Unfenced(lines))
  {
    if lines != [] {
      var n := |lines| - 1;
      OtherThanFencesOf(lines[..n]);
      assert FileOf(lines)[..n] == FileOf(lines[..n]);
      ClassifyMeans(Text(lines[n]));
      assert FileOf(Unfenced(lines[..n]) + [lines[n]]) == FileOf(Unfenced(lines[..n])) + [Text(lines[n])];
    }
  }

  lemma ReadLinesAreClassified(texts: seq<string>)
    ensures AreClassified(LinesOf(texts))
  {
    forall i | 0 <= i < |texts| ensures Classify(Text(LinesOf(texts)[i])) == LinesOf(texts)[i] {
      TextOfClassified(texts[i]);
    }
  }

  lemma FewerAreClassified(a: seq<Line>, b: seq<Line>)
    requires Within(a, b) && AreClassified(b)
    ensures AreClassified(a)
  {
    forall i | 0 <= i < |a| ensures Classify(Text(a[i])) == a[i] {
      WithinMembers(a, b, a[i]);
    }
  }

  /** What leaving out open lines behind a header does to the file. */
  lemma ShorterFile(head: seq<Line>, r: seq<Line>, body: seq<Line>)
    requires Within(r, body) && ProtectedOf(r) == ProtectedOf(body) && AreClassified(head + body)
    ensures Within(FileOf(head + r), FileOf(head + body))
    ensures ClosedTexts(FileOf(head + r)) == ClosedTexts(FileOf(head + body))
  {
    WithinBehind(head, r, body);
    FileWithin(head + r, head + body);
    FewerAreClassified(head + r, head + body);
    ClosedTextsOf(head + r);
    ClosedTextsOf(head + body);
    FilteredConcat((l: Line) => !l.Removable?, head, r);
    FilteredConcat((l: Line) => !l.Removable?, head, body);
  }

  lemma FencesAreClassified(lines: seq<Line>)
    requires AreClassified(Unfenced(lines))
    ensures AreClassified(lines)
  {
    if lines != [] {
      var n := |lines| - 1;
      var first := Unfenced(lines[..n]);
      assert forall i {:trigger first[i]} :: 0 <= i < |first| ==> Unfenced(lines)[i] == first[i];
      FencesAreClassified(lines[..n]);
      if lines[n].Fence? {
        ClassifyMeans("LFENCE\n");
      } else {
        assert Unfenced(lines)[|first|] == lines[n];
      }
      forall i | 0 <= i < |lines| ensures Classify(Text(lines[i])) == lines[i] {
        assert i < n ==> lines[..n][i] == lines[i];
      }
    }
  }

  lemma {:induction false} FilteredAreClassified(keep: Line -> bool, lines: seq<Line>)
    requires AreClassified(lines)
    ensures AreClassified(Filtered(keep, lines))
  {
    if lines != [] {
      var n := |lines| - 1;
      assert forall i {:trigger lines[..n][i]} :: 0 <= i < n ==> lines[..n][i] == lines[i];
      FilteredAreClassified(keep, lines[..n]);
    }
  }

  /** What putting fences in front of some lines behind a header does to the file. */
  lemma LongerFile(head: seq<Line>, r: seq<Line>, body: seq<Line>)
    requires Within(body, r) && Unfenced(r) == Unfenced(body) && AreClassified(head + body)
    ensures Within(FileOf(head + body), FileOf(head + r))
    ensures OtherThanFences(FileOf(head + r)) == OtherThanFences(FileOf(head + body))
  {
    WithinBehind(head, body, r);
    FileWithin(head + body, head + r);
    FilteredConcat((l: Line) => !l.Fence?, head, r);
    FilteredConcat((l: Line) => !l.Fence?, head, body);
    FilteredAreClassified((l: Line) => !l.Fence?, head + body);
    FencesAreClassified(head + r);
    OtherThanFencesOf(head + r);
    OtherThanFencesOf(head + body);
  }

  /** The walk over the lines behind the last header of a file. */
  ghost function WalkOf(m: Modifier, violates: seq<string> -> bool, texts: seq<string>): Probe
    requires HasHeader(LinesOf(texts))
  {
    Probe(m, OnLines(violates), LinesOf(texts)[..LastHeader(LinesOf(texts)) + 1])
  }

  lemma AskedAboutFiles(m: Modifier, violates: seq<string> -> bool, texts: seq<string>, lines: seq<Line>)
    requires HasHeader(LinesOf(texts))
    ensures WalkOf(m, violates, texts).Violates(lines) == violates(FileOf(WalkOf(m, violates, texts).head + lines))
  {
  }

  lemma HeadAndBody(lines: seq<Line>, h: nat)
    requires h < |lines|
    ensures lines[..h + 1] + lines[h + 1..] == lines
  {
  }

  lemma WalkedFile(m: Modifier, violates: seq<string> -> bool, texts: seq<string>, body: seq<Line>)
    requires HasHeader(LinesOf(texts)) && body == LinesOf(texts)[LastHeader(LinesOf(texts)) + 1..]
    ensures var p := WalkOf(m, violates, texts);
            && p.head + body == LinesOf(texts) && FileOf(p.head + body) == texts
            && Probed(m, violates, texts) == FileOf(p.head + p.Walk(body, []))
            && p.Violates(body) == violates(texts)
            && p.Violates(p.Walk(body, [])) == violates(Probed(m, violates, texts))
  {
    FileOfLines(texts);
    HeadAndBody(LinesOf(texts), LastHeader(LinesOf(texts)));
    AskedAboutFiles(m, violates, texts, body);
    AskedAboutFiles(m, violates, texts, WalkOf(m, violates, texts).Walk(body, []));
  }

  lemma FileStartsWith(head: seq<Line>, r: seq<Line>, body: seq<Line>)
    ensures |FileOf(head + r)| >= |head| && FileOf(head + r)[..|head|] == FileOf(head + body)[..|head|]
  {
  }

  /** Without any one of its removable lines behind the head, a file no longer shows the violation. */
  ghost predicate NeedsAll(violates: seq<string> -> bool, head: seq<Line>, r: seq<Line>) {
    forall n {:trigger r[n]} :: 0 <= n < |r| && r[n].Removable? ==>
      !violates(FileOf(head + Modify(SkipInstruction, r, n)))
  }

  lemma MinimalNeedsAll(violates: seq<string> -> bool, texts: seq<string>, body: seq<Line>)
    requires HasHeader(LinesOf(texts)) && WalkOf(SkipInstruction, violates, texts).Violates(body)
    requires IsMonotone(WalkOf(SkipInstruction, violates, texts))
    ensures var p := WalkOf(SkipInstruction, violates, texts); NeedsAll(violates, p.head, p.Walk(body, []))
  {
    var p := WalkOf(SkipInstruction, violates, texts);
    var r := p.Walk(body, []);
    MinimisedIsMinimal(p, body);
    forall n | 0 <= n < |r| && r[n].Removable? ensures !violates(FileOf(p.head + Modify(SkipInstruction, r, n))) {
      AskedAboutFiles(SkipInstruction, violates, texts, Modify(SkipInstruction, r, n));
    }
  }

  /** The lines of a minimised file, apart from the walk that they come from. */
  lemma MinimisedLines(violates: seq<string> -> bool, texts: seq<string>)
      returns (head: seq<Line>, r: seq<Line>, body: seq<Line>)
    requires HasHeader(LinesOf(texts)) && violates(texts)
    ensures |head| == LastHeader(LinesOf(texts)) + 1 && AreClassified(head + body) && FileOf(head + body) == texts
    ensures Probed(SkipInstruction, violates, texts) == FileOf(head + r) && violates(FileOf(head + r))
    ensures Within(r, body) && ProtectedOf(r) == ProtectedOf(body)
    ensures IsMonotone(WalkOf(SkipInstruction, violates, texts)) ==> NeedsAll(violates, head, r)
  {
    var p := WalkOf(SkipInstruction, violates, texts);
    head, body := p.head, LinesOf(texts)[LastHeader(LinesOf(texts)) + 1..];
    WalkedFile(SkipInstruction, violates, texts, body);
    MinimisedIsMinimal(p, body);
    ReadLinesAreClassified(texts);
    r := p.Walk(body, []);
    if IsMonotone(p) {
      MinimalNeedsAll(violates, texts, body);
    }
  }

  /** Minimising a file keeps the violation and all up to the last header, only leaves lines out, and leaves out none
      that is closed to changes. */
  lemma MinimisedFile(violates: seq<string> -> bool, texts: seq<string>)
    requires HasHeader(LinesOf(texts)) && violates(texts)
    ensures var r := Probed(SkipInstruction, violates, texts);
            var h := LastHeader(LinesOf(texts));
            && violates(r) && Within(r, texts) && ClosedTexts(r) == ClosedTexts(texts)
            && |r| > h && r[..h + 1] == texts[..h + 1]
  {
    var head, r, body := MinimisedLines(violates, texts);
    ShorterFile(head, r, body);
    FileStartsWith(head, r, body);
  }

  lemma OpenLineIsRemovable(head: seq<Line>, r: seq<Line>, body: seq<Line>, k: nat)
    requires Within(r, body) && AreClassified(head + body)
    requires |head| <= k < |FileOf(head + r)| && IsOpen(FileOf(head + r)[k])
    ensures k - |head| < |r| && r[k - |head|].Removable?
  {
    WithinBehind(head, r, body);
    FewerAreClassified(head + r, head + body);
    assert (head + r)[k] == r[k - |head|];
    ClassifyMeans(Text((head + r)[k]));
  }

  /** The line at an open text of the minimised file. */
  lemma OpenLine(violates: seq<string> -> bool, texts: seq<string>, k: nat) returns (head: seq<Line>, r: seq<Line>)
    requires HasHeader(LinesOf(texts)) && violates(texts)
    requires LastHeader(LinesOf(texts)) < k < |Probed(SkipInstruction, violates, texts)|
    requires IsOpen(Probed(SkipInstruction, violates, texts)[k])
    ensures Probed(SkipInstruction, violates, texts) == FileOf(head + r)
    ensures |head| <= k < |head| + |r| && r[k - |head|].Removable?
    ensures IsMonotone(WalkOf(SkipInstruction, violates, texts)) ==> NeedsAll(violates, head, r)
  {
    var body;
    head, r, body := MinimisedLines(violates, texts);
    OpenLineIsRemovable(head, r, body, k);
  }

  lemma FileWithoutLine(violates: seq<string> -> bool, head: seq<Line>, r: seq<Line>, k: nat)
    requires NeedsAll(violates, head, r) && |head| <= k < |head| + |r| && r[k - |head|].Removable?
    ensures var file := FileOf(head + r); !violates(file[..k] + file[k + 1..])
  {
    WithoutLine(head, r, k - |head|);
  }

  /** And no open text that it leaves behind the header can go, for an oracle that is monotone. */
  lemma OpenTextsAreNeeded(violates: seq<string> -> bool, texts: seq<string>, k: nat)
    requires HasHeader(LinesOf(texts)) && violates(texts) && IsMonotone(WalkOf(SkipInstruction, violates, texts))
    requires LastHeader(LinesOf(texts)) < k < |Probed(SkipInstruction, violates, texts)|
    requires IsOpen(Probed(SkipInstruction, violates, texts)[k])
    ensures var r := Probed(SkipInstruction, violates, texts); !violates(r[..k] + r[k + 1..])
  {
    var head, r := OpenLine(violates, texts, k);
    FileWithoutLine(violates, head, r, k);
  }

  lemma FencedLines(violates: seq<string> -> bool, texts: seq<string>)
      returns (head: seq<Line>, r: seq<Line>, body: seq<Line>)
    requires HasHeader(LinesOf(texts)) && violates(texts)
    ensures |head| == LastHeader(LinesOf(texts)) + 1 && AreClassified(head + body) && FileOf(head + body) == texts
    ensures Probed(PushFence, violates, texts) == FileOf(head + r) && violates(FileOf(head + r))
    ensures Within(body, r) && Unfenced(r) == Unfenced(body)
  {
    var p := WalkOf(PushFence, violates, texts);
    head, body := p.head, LinesOf(texts)[LastHeader(LinesOf(texts)) + 1..];
    WalkedFile(PushFence, violates, texts, body);
    FencedIsMaximal(p, body);
    ReadLinesAreClassified(texts);
    r := p.Walk(body, []);
  }

  /** Pushing fences keeps the violation and all up to the last header, and only puts fences in. */
  lemma FencedFile(violates: seq<string> -> bool, texts: seq<string>)
    requires HasHeader(LinesOf(texts)) && violates(texts)
    ensures var r := Probed(PushFence, violates, texts);
            var h := LastHeader(LinesOf(texts));
            && violates(r) && Within(texts, r) && OtherThanFences(r) == OtherThanFences(texts)
            && |r| > h && r[..h + 1] == texts[..h + 1]
  {
    var head, r, body := FencedLines(violates, texts);
    LongerFile(head, r, body);
    FileStartsWith(head, r, body);
  }

  lemma WithoutLine(head: seq<Line>, r: seq<Line>, k: nat)
    requires k < |r|
    ensures var file := FileOf(head + r);
            var n := |head| + k;
            FileOf(head + Modify(SkipInstruction, r, k)) == file[..n] + file[n + 1..]
  {
  }
}

/** Test-case inputs: how an input initialises the machine, and taint soundness in terms of inputs. */
module Inputs {
  import opened Flags
  import opened Machine
  import opened Speculation
  import opened Taint
  import opened TaintSoundness
  import opened TwoRuns
  import opened Arithmetic

  /** The input array: memory words, then eight register words of which seven are used. */
  datatype Layout = Layout(registerStart: nat) {
    function DataSize(): nat { registerStart + 8 }
  }

  ghost predicate ValidInput(y: Layout, input: seq<int>) {
    && |input| == y.DataSize() && 8 * y.DataSize() <= TWO64
    && forall j :: 0 <= j < |input| ==> 0 <= input[j] < TWO64
  }

  /** The FLAGS word is masked with 2263, which clears TF, IF and DF. */
  predicate LoadedFlag(word: int, f: Flag) {
    match f
    case CF => Bit(word, 0)
    case PF => Bit(word, 2)
    case AF => Bit(word, 4)
    case ZF => Bit(word, 6)
    case SF => Bit(word, 7)
    case OF => Bit(word, 11)
    case _ => false
  }

  /** The place of a register among the first n that an input initialises; -1 if it is none of them. */
  function PlaceOf(r: string, n: nat): (p: int)
    requires n <= |INPUT_REGISTERS|
    ensures -1 <= p < n && (p >= 0 ==> INPUT_REGISTERS[p] == r)
    ensures p == -1 ==> forall i :: 0 <= i < n ==> INPUT_REGISTERS[i] != r
  {
    if n == 0 then -1 else if INPUT_REGISTERS[n - 1] == r then n - 1 else PlaceOf(r, n - 1)
  }

  /** The contents of the input registers; every other register keeps its fixed initial value. */
  function LoadedReg(y: Layout, input: seq<int>, r: string, other: int): int
    requires |input| == y.DataSize()
  {
    var p := PlaceOf(r, |INPUT_REGISTERS|);
    if p >= 0 then input[y.registerStart + p] else other
  }

  /** The tracker's position of a register is the word that it is loaded from. */
  lemma LoadedFromOffset(y: Layout, input: seq<int>, r: string, other: int)
    requires |input| == y.DataSize()
    ensures var p := InputOffset(RegLabel(r), y.registerStart);
            LoadedReg(y, input, r, other) == if 0 <= p < y.registerStart + 6 then input[p] else other
  {
    var p := PlaceOf(r, |INPUT_REGISTERS|);
    if p >= 0 {
      OffsetStands(RegLabel(r), y.registerStart, y.registerStart + p);
    } else {
      var q := InputOffset(RegLabel(r), y.registerStart);
      if q >= 0 {
        OffsetStands(RegLabel(r), y.registerStart, q);
      }
    }
  }

  ghost function LoadedRegs(y: Layout, input: seq<int>, rest: RegFile): (r: RegFile)
    requires ValidInput(y, input)
  {
    imap x: string | true :: LoadedReg(y, input, x, rest[x])
  }

  ghost function LoadedFlags(y: Layout, input: seq<int>): FlagFile
    requires ValidInput(y, input)
  {
    FlagsOf(input[y.registerStart + 6])
  }

  ghost function FlagsOf(word: int): FlagFile {
    imap f: Flag | Position(f) < |FLAG_NAMES| :: LoadedFlag(word, f)
  }

  ghost function LoadedByte(y: Layout, base: int, input: seq<int>, a: int, other: int): int
    requires |input| == y.DataSize()
  {
    if base <= a < base + 8 * |input| then input[(a - base) / 8] / Pow2(8 * ((a - base) % 8)) % 256 else other
  }

  ghost function LoadedMem(y: Layout, base: int, input: seq<int>, rest: Mem): Mem
    requires ValidInput(y, input)
  {
    imap a: int | true :: LoadedByte(y, base, input, a, rest[a])
  }

  /** The input words go to the sandbox, in order from its base, and to the input registers; `rest` is
      the state that no input sets. */
  ghost function LoadInput(y: Layout, base: int, rest: Cpu, input: seq<int>): Cpu
    requires ValidInput(y, input)
  {
    Cpu(rest.pc, LoadedRegs(y, input, rest.regs), LoadedFlags(y, input), LoadedMem(y, base, input, rest.mem))
  }

  function FlagWeight(f: bool, w: int): int {
    if f then w else 0
  }

  function Eflags(f: FlagFile): int {
    2 + FlagWeight(f[CF], 1) + FlagWeight(f[PF], 4) + FlagWeight(f[AF], 16) + FlagWeight(f[ZF], 64)
    + FlagWeight(f[SF], 128) + FlagWeight(f[TF], 256) + FlagWeight(f[IF], 512) + FlagWeight(f[DF], 1024)
    + FlagWeight(f[OF], 2048)
  }

  /** The ctr and arch tracers start with the registers, and the tracker with their labels. */
  function InitialTrace(o: Observation, c: Cpu): seq<int> {
    if o.Ct? then []
    else [c.regs["A"], c.regs["B"], c.regs["C"], c.regs["D"], c.regs["SI"], c.regs["DI"], Eflags(c.flags)]
  }

  function InitialTaints(o: Observation): set<Label> {
    if o.Ct? then {}
    else {RegLabel("A"), RegLabel("B"), RegLabel("C"), RegLabel("D"), RegLabel("SI"), RegLabel("DI"), RegLabel("RSP"),
          FlagLabel(CF), FlagLabel(PF), FlagLabel(AF), FlagLabel(ZF), FlagLabel(SF), FlagLabel(TF), FlagLabel(IF),
          FlagLabel(DF), FlagLabel(OF)}
  }

  // ----- What an input sets -----

  lemma RegisterLoaded(y: Layout, base: int, rest: Cpu, a: seq<int>, n: nat)
    requires ValidInput(y, a) && n < |INPUT_REGISTERS|
    ensures LoadInput(y, base, rest, a).regs[INPUT_REGISTERS[n]] == a[y.registerStart + n]
  {
    LoadedFromOffset(y, a, INPUT_REGISTERS[n], rest.regs[INPUT_REGISTERS[n]]);
    OffsetStands(RegLabel(INPUT_REGISTERS[n]), y.registerStart, y.registerStart + n);
  }

  /** Six registers, in this order, from the words behind the memory words. */
  lemma RegistersLoaded(y: Layout, base: int, rest: Cpu, a: seq<int>)
    requires ValidInput(y, a)
    ensures var c, s := LoadInput(y, base, rest, a), y.registerStart;
            && c.regs["A"] == a[s] && c.regs["B"] == a[s + 1] && c.regs["C"] == a[s + 2]
            && c.regs["D"] == a[s + 3] && c.regs["SI"] == a[s + 4] && c.regs["DI"] == a[s + 5]
  {
    RegisterLoaded(y, base, rest, a, 0);
    RegisterLoaded(y, base, rest, a, 1);
    RegisterLoaded(y, base, rest, a, 2);
    RegisterLoaded(y, base, rest, a, 3);
    RegisterLoaded(y, base, rest, a, 4);
    RegisterLoaded(y, base, rest, a, 5);
  }

  lemma {:induction false} DigitsGiveBack(bs: seq<int>, v: nat)
    requires forall i {:trigger bs[i]} :: 0 <= i < |bs| ==> bs[i] == v / Pow2(8 * i) % 256
    ensures LittleEndian(bs) == v % Pow2(8 * |bs|)
  {
    if bs != [] {
      forall i | 0 <= i < |bs| - 1 ensures bs[1..][i] == v / 256 / Pow2(8 * i) % 256 {
        DigitShifts(v, i);
      }
      DigitsGiveBack(bs[1..], v / 256);
      DigitShifts(v, |bs| - 1);
    }
  }

  lemma DigitShifts(v: nat, i: nat)
    ensures v / Pow2(8 * (i + 1)) == v / 256 / Pow2(8 * i)
    ensures v % Pow2(8 * (i + 1)) == v % 256 + 256 * (v / 256 % Pow2(8 * i))
  {
    Pow2Byte(8 * i);
    DivideTwice(v, 256, Pow2(8 * i));
  }

  lemma Pow2Quarter(n: nat)
    ensures Pow2(n + 2) == 4 * Pow2(n)
  {
    assert Pow2(n + 2) == 2 * Pow2(n + 1);
  }

  lemma Pow2Byte(n: nat)
    ensures Pow2(n + 8) == 256 * Pow2(n)
  {
    Pow2Quarter(n);
    Pow2Quarter(n + 2);
    Pow2Quarter(n + 4);
    Pow2Quarter(n + 6);
  }

  lemma Pow64(n: nat)
    requires n == 64
    ensures Pow2(n) == TWO64
  {
    Pow2Byte(n - 8);
    Pow2Byte(n - 16);
    Pow2Byte(n - 24);
    Pow2Byte(n - 32);
    Pow2Byte(n - 40);
    Pow2Byte(n - 48);
    Pow2Byte(n - 56);
    Pow2Byte(n - 64);
  }

  lemma ByteLoaded(y: Layout, base: int, rest: Cpu, a: seq<int>, j: nat, i: nat)
    requires ValidInput(y, a) && j < |a| && i < 8
    ensures LoadInput(y, base, rest, a).mem[base + 8 * j + i] == a[j] / Pow2(8 * i) % 256
  {
    var x := base + 8 * j + i;
    assert (x - base) / 8 == j && (x - base) % 8 == i;
    assert LoadInput(y, base, rest, a).mem[x] == LoadedByte(y, base, a, x, rest.mem[x]);
  }

  lemma DigitsOfWord(bs: seq<int>, v: nat)
    requires |bs| == 8 && v < TWO64
    requires forall i {:trigger bs[i]} :: 0 <= i < |bs| ==> bs[i] == v / Pow2(8 * i) % 256
    ensures LittleEndian(bs) == v
  {
    DigitsGiveBack(bs, v);
    Pow64(8 * |bs|);
  }

  /** Memory word j, read back from its place in the sandbox, is word j of the input. */
  lemma WordLoaded(y: Layout, base: int, rest: Cpu, a: seq<int>, j: nat)
    requires ValidInput(y, a) && j < |a|
    ensures LittleEndian(ReadBytes(LoadInput(y, base, rest, a).mem, base + 8 * j, 8)) == a[j]
  {
    var m := LoadInput(y, base, rest, a).mem;
    var bs := ReadBytes(m, base + 8 * j, 8);
    forall i | 0 <= i < |bs| ensures bs[i] == a[j] / Pow2(8 * i) % 256 {
      assert bs[i] == m[base + 8 * j + i];
      ByteLoaded(y, base, rest, a, j, i);
    }
    DigitsOfWord(bs, a[j]);
  }

  ghost function StartOn(k: Contract, y: Layout, rest: Cpu, input: seq<int>): (c: Config)
    requires ValidInput(y, input)
    ensures WellStacked(c) && c.saved == []
  {
    var cpu := LoadInput(y, k.base, rest, input);
    Start(cpu, InitialTrace(k.observation, cpu))
  }

  lemma SixWords(a: seq<int>, s: nat)
    requires s + 6 <= |a|
    ensures a[s..s + 6] == [a[s], a[s + 1], a[s + 2], a[s + 3], a[s + 4], a[s + 5]]
  {
  }

  /** The ctr and arch traces start with the input's register words and the flags that its last word sets. */
  lemma TraceStartsWithInput(k: Contract, y: Layout, rest: Cpu, a: seq<int>)
    requires ValidInput(y, a) && !k.observation.Ct?
    ensures var s := y.registerStart;
            StartOn(k, y, rest, a).trace == a[s..s + 6] + [Eflags(FlagsOf(a[s + 6]))]
  {
    var c := LoadInput(y, k.base, rest, a);
    RegistersLoaded(y, k.base, rest, a);
    SixWords(a, y.registerStart);
    assert c.flags == FlagsOf(a[y.registerStart + 6]);
    ShownWords(k.observation, c);
  }

  lemma ShownWords(o: Observation, c: Cpu)
    requires !o.Ct?
    ensures InitialTrace(o, c) == [c.regs["A"], c.regs["B"], c.regs["C"], c.regs["D"], c.regs["SI"], c.regs["DI"]]
                                  + [Eflags(c.flags)]
  {
  }

  /** The taint of an input after `n` moves of the driver. */
  ghost function TaintOf(k: Contract, y: Layout, rest: Cpu, input: seq<int>, n: nat): (taint: seq<bool>)
    requires ValidProgram(k) && ValidInput(y, input)
    ensures |taint| == y.DataSize()
  {
    GetTaint(TrackRun(k, StartOn(k, y, rest, input), Initial(InitialTaints(k.observation)), n),
             y.registerStart, y.DataSize())
  }

  ghost predicate AgreeOn(taint: seq<bool>, a: seq<int>, b: seq<int>)
    requires |taint| == |a| == |b|
  {
    forall j :: 0 <= j < |taint| && taint[j] ==> a[j] == b[j]
  }

  // ----- The trusted labels -----

  /** Labels of tainted words, and of state that is no part of the input. */
  ghost function TrustedBy(y: Layout, taint: seq<bool>): iset<Label>
    requires |taint| == y.DataSize()
  {
    iset l: Label | var p := InputOffset(l, y.registerStart); 0 <= p < |taint| ==> taint[p]
  }

  lemma TaintedAreTrusted(y: Layout, t: Tracker)
    ensures Trusted(TrustedBy(y, GetTaint(t, y.registerStart, y.DataSize())), Settle(t).tainted)
  {
    var taint := GetTaint(t, y.registerStart, y.DataSize());
    forall l | l in Settle(t).tainted ensures l in TrustedBy(y, taint) {
      var p := InputOffset(l, y.registerStart);
      if 0 <= p < |taint| {
        assert IsTainted(Settle(t).tainted, y.registerStart, p);
      }
    }
  }

  lemma ByteOffset(y: Layout, base: int, a: int, size: nat)
    requires base <= a < base + 8 * size && 8 * size <= TWO64
    ensures InputOffset(WordLabel(WordOf(base, a)), y.registerStart) == (a - base) / 8
  {
    assert (a - base) % TWO64 == a - base;
  }

  lemma SameRegister(y: Layout, base: int, rest: Cpu, taint: seq<bool>, a: seq<int>, b: seq<int>, r: string)
    requires ValidInput(y, a) && ValidInput(y, b) && |taint| == y.DataSize() && AgreeOn(taint, a, b)
    requires RegLabel(r) in TrustedBy(y, taint)
    ensures LoadInput(y, base, rest, a).regs[r] == LoadInput(y, base, rest, b).regs[r]
  {
    LoadedFromOffset(y, a, r, rest.regs[r]);
    LoadedFromOffset(y, b, r, rest.regs[r]);
    var p := InputOffset(RegLabel(r), y.registerStart);
    assert 0 <= p < |taint| ==> taint[p] && a[p] == b[p];
  }

  lemma SameFlags(y: Layout, base: int, rest: Cpu, taint: seq<bool>, a: seq<int>, b: seq<int>, f: Flag)
    requires ValidInput(y, a) && ValidInput(y, b) && |taint| == y.DataSize() && AgreeOn(taint, a, b)
    requires FlagLabel(f) in TrustedBy(y, taint)
    ensures LoadInput(y, base, rest, a).flags == LoadInput(y, base, rest, b).flags
  {
    var p := y.registerStart + 6;
    assert InputOffset(FlagLabel(f), y.registerStart) == p;
    assert taint[p] && a[p] == b[p];
    assert LoadedFlags(y, a) == FlagsOf(a[p]) && LoadedFlags(y, b) == FlagsOf(b[p]);
  }

  lemma SameByte(y: Layout, base: int, rest: Cpu, taint: seq<bool>, a: seq<int>, b: seq<int>, x: int)
    requires ValidInput(y, a) && ValidInput(y, b) && |taint| == y.DataSize() && AgreeOn(taint, a, b)
    requires WordLabel(WordOf(base, x)) in TrustedBy(y, taint)
    ensures LoadInput(y, base, rest, a).mem[x] == LoadInput(y, base, rest, b).mem[x]
  {
    if base <= x < base + 8 * |a| {
      ByteOffset(y, base, x, |a|);
      var p := (x - base) / 8;
      assert taint[p] && a[p] == b[p];
    }
  }

  /** What the taint of an input means: an input that agrees with it on the tainted words gives every tainted
      location, and every location outside the input, the same initial value. */
  lemma LoadedStatesAgree(y: Layout, base: int, rest: Cpu, taint: seq<bool>, a: seq<int>, b: seq<int>)
    requires ValidInput(y, a) && ValidInput(y, b) && |taint| == y.DataSize() && AgreeOn(taint, a, b)
    ensures Agree(TrustedBy(y, taint), base, map[], LoadInput(y, base, rest, a), LoadInput(y, base, rest, b))
  {
    var g := TrustedBy(y, taint);
    forall l: Label ensures Trusted(g, Of(map[], l)) ==> l in g {
      assert l in Of(map[], l);
    }
    forall r | RegLabel(r) in g ensures LoadInput(y, base, rest, a).regs[r] == LoadInput(y, base, rest, b).regs[r] {
      SameRegister(y, base, rest, taint, a, b, r);
    }
    forall f | FlagLabel(f) in g ensures LoadInput(y, base, rest, a).flags[f] == LoadInput(y, base, rest, b).flags[f] {
      SameFlags(y, base, rest, taint, a, b, f);
    }
    forall x | WordLabel(WordOf(base, x)) in g
      ensures LoadInput(y, base, rest, a).mem[x] == LoadInput(y, base, rest, b).mem[x]
    {
      SameByte(y, base, rest, taint, a, b, x);
    }
  }

  lemma ObservedAreTrusted(g: iset<Label>, o: Observation, r: string)
    requires !o.Ct? && Trusted(g, InitialTaints(o)) && r in {"A", "B", "C", "D", "SI", "DI"}
    ensures RegLabel(r) in g && FlagLabel(CF) in g
  {
    assert RegLabel(r) in InitialTaints(o) && FlagLabel(CF) in InitialTaints(o);
  }

  lemma SameInitialTrace(o: Observation, s: Cpu, t: Cpu)
    requires forall r :: r in {"A", "B", "C", "D", "SI", "DI"} ==> s.regs[r] == t.regs[r]
    requires s.flags == t.flags
    ensures InitialTrace(o, s) == InitialTrace(o, t)
  {
  }

  lemma InitialTracesAgree(k: Contract, y: Layout, rest: Cpu, taint: seq<bool>, a: seq<int>, b: seq<int>)
    requires ValidInput(y, a) && ValidInput(y, b) && |taint| == y.DataSize() && AgreeOn(taint, a, b)
    requires Trusted(TrustedBy(y, taint), InitialTaints(k.observation))
    ensures StartOn(k, y, rest, a).trace == StartOn(k, y, rest, b).trace
  {
    if !k.observation.Ct? {
      var s, t := LoadInput(y, k.base, rest, a), LoadInput(y, k.base, rest, b);
      forall r | r in {"A", "B", "C", "D", "SI", "DI"} ensures s.regs[r] == t.regs[r] {
        ObservedAreTrusted(TrustedBy(y, taint), k.observation, r);
        SameRegister(y, k.base, rest, taint, a, b, r);
      }
      ObservedAreTrusted(TrustedBy(y, taint), k.observation, "A");
      SameFlags(y, k.base, rest, taint, a, b, CF);
      SameInitialTrace(k.observation, s, t);
    }
  }

  // ----- The theorem -----

  /** For every program that the tracker's operand lists describe, for the seq and cond contracts with
      any nesting bound and window, and for the ct, ctr and arch observations: if no access of the run of
      `a` straddles the sandbox base, an input that agrees with `a` on the words tainted by that run has
      the same contract trace, and completes with it. Every prefix of the run will do. */
  lemma TaintIsSound(k: Contract, y: Layout, rest: Cpu, a: seq<int>, b: seq<int>, n: nat)
    requires TrackableProgram(k) && !k.execution.Bpas?
    requires ValidInput(y, a) && ValidInput(y, b)
    requires RunInside(k, StartOn(k, y, rest, a), n)
    requires AgreeOn(TaintOf(k, y, rest, a, n), a, b)
    ensures var r, s := Run(k, StartOn(k, y, rest, a), n), Run(k, StartOn(k, y, rest, b), n);
            r.trace == s.trace && (Done(k, r) <==> Done(k, s))
  {
    var c, e := StartOn(k, y, rest, a), StartOn(k, y, rest, b);
    var t := Initial(InitialTaints(k.observation));
    var taint := TaintOf(k, y, rest, a, n);
    var g := TrustedBy(y, taint);
    TaintedAreTrusted(y, TrackRun(k, c, t, n));
    RunTaintsGrow(k, c, t, n);
    LoadedStatesAgree(y, k.base, rest, taint, a, b);
    InitialTracesAgree(k, y, rest, taint, a, b);
    RunsRelated(k, g, c, t, e, n);
  }
}

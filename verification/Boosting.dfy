/** Input boosting end to end: a boosted input always lands in the equivalence class of the input it
    was made from, so a boosted round has no single-entry class. */
module Boosting {
  import opened Machine
  import opened Speculation
  import opened TaintSoundness
  import opened Inputs
  import Analyser
  import InputGenerator

  /** The driver runs an input to completion within `n` moves. */
  ghost predicate Completes(k: Contract, y: Layout, rest: Cpu, words: seq<int>, n: nat)
    requires ValidProgram(k) && ValidInput(y, words)
  {
    Done(k, Run(k, StartOn(k, y, rest, words), n))
  }

  ghost function ContractTrace(k: Contract, y: Layout, rest: Cpu, words: seq<int>, n: nat): seq<int>
    requires ValidProgram(k) && ValidInput(y, words)
  {
    Run(k, StartOn(k, y, rest, words), n).trace
  }

  lemma KeptIsValid(y: Layout, taint: seq<bool>, a: seq<int>, drawn: seq<int>)
    requires ValidInput(y, a) && ValidInput(y, drawn) && |taint| == y.DataSize()
    ensures ValidInput(y, InputGenerator.Kept(taint, a, drawn))
    ensures AgreeOn(taint, a, InputGenerator.Kept(taint, a, drawn))
  {
  }

  lemma GeneratedIsValid(y: Layout, seed: int, entropy: nat)
    requires InputGenerator.Fits(seed, entropy, y.DataSize()) && 8 * y.DataSize() <= TWO64
    ensures ValidInput(y, InputGenerator.WordsOf(seed, entropy, y.DataSize()))
  {
  }

  /** Whatever the random words of the new input are, it completes with the trace of the old one. */
  lemma BoostedTraceIsEqual(k: Contract, y: Layout, rest: Cpu, a: seq<int>, drawn: seq<int>, n: nat)
    requires TrackableProgram(k) && !k.execution.Bpas?
    requires ValidInput(y, a) && ValidInput(y, drawn) && Completes(k, y, rest, a, n)
    requires RunInside(k, StartOn(k, y, rest, a), n)
    ensures var b := InputGenerator.Kept(TaintOf(k, y, rest, a, n), a, drawn);
            && ValidInput(y, b)
            && Completes(k, y, rest, b, n)
            && ContractTrace(k, y, rest, b, n) == ContractTrace(k, y, rest, a, n)
  {
    var taint := TaintOf(k, y, rest, a, n);
    KeptIsValid(y, taint, a, drawn);
    TaintIsSound(k, y, rest, a, InputGenerator.Kept(taint, a, drawn), n);
  }

  // ----- A whole round -----

  /** The contract traces of a round, through any digest of traces. */
  ghost predicate TracesOfRound(k: Contract, y: Layout, rest: Cpu, inputs: seq<seq<int>>, steps: seq<nat>,
                                digest: seq<int> -> int, ctraces: seq<int>)
    requires ValidProgram(k)
  {
    && |inputs| == |steps| == |ctraces|
    && forall i :: 0 <= i < |inputs| ==>
         && ValidInput(y, inputs[i])
         && Completes(k, y, rest, inputs[i], steps[i])
         && ctraces[i] == digest(ContractTrace(k, y, rest, inputs[i], steps[i]))
  }

  /** No run of the round has an access that straddles the sandbox base. */
  ghost predicate RoundInside(k: Contract, y: Layout, rest: Cpu, inputs: seq<seq<int>>, steps: seq<nat>)
    requires ValidProgram(k) && |inputs| == |steps|
    requires forall i :: 0 <= i < |inputs| ==> ValidInput(y, inputs[i])
  {
    forall i :: 0 <= i < |inputs| ==> RunInside(k, StartOn(k, y, rest, inputs[i]), steps[i])
  }

  /** The word of the new input is that of the old one, except for drawn words where it is not tainted. */
  ghost predicate ExtendsInput(k: Contract, y: Layout, rest: Cpu, input: seq<int>, n: nat, extra: seq<int>)
    requires ValidProgram(k) && ValidInput(y, input)
  {
    exists drawn :: ValidInput(y, drawn) && extra == InputGenerator.Kept(TaintOf(k, y, rest, input, n), input, drawn)
  }

  /** The extension of a round, from the model's taints. */
  ghost predicate ExtendsRound(k: Contract, y: Layout, rest: Cpu, inputs: seq<seq<int>>, steps: seq<nat>,
                               extra: seq<seq<int>>)
    requires ValidProgram(k) && |inputs| == |steps|
    requires forall i :: 0 <= i < |inputs| ==> ValidInput(y, inputs[i])
  {
    && |extra| == |inputs|
    && forall i :: 0 <= i < |inputs| ==> ExtendsInput(k, y, rest, inputs[i], steps[i], extra[i])
  }

  lemma ExtendedTraceIsEqual(k: Contract, y: Layout, rest: Cpu, input: seq<int>, n: nat, extra: seq<int>)
    requires TrackableProgram(k) && !k.execution.Bpas?
    requires ValidInput(y, input) && Completes(k, y, rest, input, n) && RunInside(k, StartOn(k, y, rest, input), n)
    requires ExtendsInput(k, y, rest, input, n, extra)
    ensures ValidInput(y, extra) && Completes(k, y, rest, extra, n)
    ensures ContractTrace(k, y, rest, extra, n) == ContractTrace(k, y, rest, input, n)
  {
    var drawn :| ValidInput(y, drawn) && extra == InputGenerator.Kept(TaintOf(k, y, rest, input, n), input, drawn);
    BoostedTraceIsEqual(k, y, rest, input, drawn, n);
  }

  /** The extended inputs complete, and their traces repeat those of the original inputs. */
  lemma ExtensionRepeatsTraces(k: Contract, y: Layout, rest: Cpu, inputs: seq<seq<int>>, steps: seq<nat>,
                               extra: seq<seq<int>>, digest: seq<int> -> int, ctraces: seq<int>)
    requires TrackableProgram(k) && !k.execution.Bpas?
    requires TracesOfRound(k, y, rest, inputs, steps, digest, ctraces) && RoundInside(k, y, rest, inputs, steps)
    requires ExtendsRound(k, y, rest, inputs, steps, extra)
    ensures TracesOfRound(k, y, rest, extra, steps, digest, ctraces)
  {
    forall i | 0 <= i < |inputs|
      ensures ValidInput(y, extra[i]) && Completes(k, y, rest, extra[i], steps[i])
      ensures ctraces[i] == digest(ContractTrace(k, y, rest, extra[i], steps[i]))
    {
      ExtendedTraceIsEqual(k, y, rest, inputs[i], steps[i], extra[i]);
    }
  }

  // ----- What the input generator makes -----

  function WordsIn(inputs: seq<InputGenerator.Input>): (r: seq<seq<int>>)
    ensures |r| == |inputs| && forall i {:trigger r[i]} :: 0 <= i < |r| ==> r[i] == inputs[i].words
  {
    seq(|inputs|, i requires 0 <= i < |inputs| => inputs[i].words)
  }

  /** The model's taints of a round. */
  ghost predicate TaintsOfRound(k: Contract, y: Layout, rest: Cpu, inputs: seq<InputGenerator.Input>, steps: seq<nat>,
                                taints: seq<seq<bool>>)
    requires ValidProgram(k)
  {
    && |inputs| == |steps| == |taints|
    && forall i :: 0 <= i < |inputs| ==>
         && ValidInput(y, inputs[i].words)
         && taints[i] == TaintOf(k, y, rest, inputs[i].words, steps[i])
  }

  /** The generator's extension, made from those taints, extends the round. */
  lemma GeneratorExtendsRound(k: Contract, y: Layout, rest: Cpu, inputs: seq<InputGenerator.Input>, steps: seq<nat>,
                              taints: seq<seq<bool>>, entropy: nat, extra: seq<InputGenerator.Input>)
    requires ValidProgram(k) && TaintsOfRound(k, y, rest, inputs, steps, taints) && inputs != []
    requires InputGenerator.IsExtension(inputs, taints, entropy, y.DataSize(), extra)
    ensures ExtendsRound(k, y, rest, WordsIn(inputs), steps, WordsIn(extra))
  {
    forall i | 0 <= i < |inputs| ensures ExtendsInput(k, y, rest, inputs[i].words, steps[i], extra[i].words) {
      var drawn := InputGenerator.WordsOf(extra[i].seed, entropy, y.DataSize());
      GeneratedIsValid(y, extra[i].seed, entropy);
      assert extra[i] == InputGenerator.ExtendedInput(inputs[i], taints[i], entropy, extra[i].seed);
      assert extra[i].words ==
        InputGenerator.Kept(TaintOf(k, y, rest, inputs[i].words, steps[i]), inputs[i].words, drawn);
    }
  }

  // ----- Its equivalence classes -----

  lemma TwoMeasurements(ctraces: seq<int>, htraces: seq<int>, i: nat, j: nat)
    requires |ctraces| <= |htraces| && i < j < |ctraces| && ctraces[i] == ctraces[j]
    ensures |Analyser.ClassOf(ctraces, htraces, ctraces[i], |ctraces|)| > 1
  {
    var c := ctraces[i];
    var a, b := Analyser.Measurement(i, c, htraces[i]), Analyser.Measurement(j, c, htraces[j]);
    Analyser.InClass(ctraces, htraces, c, |ctraces|, a);
    Analyser.InClass(ctraces, htraces, c, |ctraces|, b);
  }

  /** With two inputs per class, the effective classes of a boosted round are all its classes: none is
      dropped for having a single entry. */
  lemma NoClassIsDropped(ctraces: seq<int>, htraces: seq<int>, effective: seq<Analyser.EquivalenceClass>, i: nat)
    requires i < |ctraces| && 2 * |ctraces| <= |htraces|
    requires Analyser.EffectiveClasses(ctraces + ctraces, htraces, effective)
    ensures Analyser.HasClass(effective, ctraces[i])
  {
    var all := ctraces + ctraces;
    assert all[i] == ctraces[i] && all[|ctraces| + i] == ctraces[i];
    TwoMeasurements(all, htraces, i, |ctraces| + i);
  }

  lemma PairInClass(ctraces: seq<int>, htraces: seq<int>, effective: seq<Analyser.EquivalenceClass>, i: nat)
    requires i < |ctraces| && 2 * |ctraces| <= |htraces|
    requires Analyser.EffectiveClasses(ctraces + ctraces, htraces, effective)
    ensures exists x :: x in effective && InPairOf(htraces, |ctraces|, i, x)
  {
    var n, all, c := |ctraces|, ctraces + ctraces, ctraces[i];
    NoClassIsDropped(ctraces, htraces, effective, i);
    var j :| 0 <= j < |effective| && effective[j].ctrace == c;
    assert Analyser.IsClass(all, htraces, effective[j]);
    Analyser.InClass(all, htraces, c, |all|, Analyser.Measurement(i, c, htraces[i]));
    Analyser.InClass(all, htraces, c, |all|, Analyser.Measurement(n + i, c, htraces[n + i]));
    assert effective[j] in effective && InPairOf(htraces, n, i, effective[j]);
  }

  /** The class holds input i and input n + i. */
  ghost predicate InPairOf(htraces: seq<int>, n: nat, i: nat, x: Analyser.EquivalenceClass)
    requires n + i < |htraces|
  {
    && Analyser.Measurement(i, x.ctrace, htraces[i]) in x.measurements
    && Analyser.Measurement(n + i, x.ctrace, htraces[n + i]) in x.measurements
  }

  lemma TracesAreDetermined(k: Contract, y: Layout, rest: Cpu, inputs: seq<seq<int>>, steps: seq<nat>,
                            digest: seq<int> -> int, first: seq<int>, second: seq<int>)
    requires ValidProgram(k)
    requires TracesOfRound(k, y, rest, inputs, steps, digest, first)
    requires TracesOfRound(k, y, rest, inputs, steps, digest, second)
    ensures first == second
  {
  }

  /** The whole chain: taint the inputs, extend them, trace everything, build the classes. The class of
      every input is effective and holds both the input and the one boosted from it. */
  lemma BoostedPairsShareAClass(k: Contract, y: Layout, rest: Cpu, inputs: seq<seq<int>>, steps: seq<nat>,
                                extra: seq<seq<int>>, digest: seq<int> -> int, first: seq<int>, second: seq<int>,
                                htraces: seq<int>, effective: seq<Analyser.EquivalenceClass>, i: nat)
    requires TrackableProgram(k) && !k.execution.Bpas?
    requires TracesOfRound(k, y, rest, inputs, steps, digest, first) && RoundInside(k, y, rest, inputs, steps)
    requires ExtendsRound(k, y, rest, inputs, steps, extra)
    requires TracesOfRound(k, y, rest, extra, steps, digest, second)
    requires |first + second| <= |htraces| && i < |inputs|
    requires Analyser.EffectiveClasses(first + second, htraces, effective)
    ensures exists x :: x in effective && InPairOf(htraces, |inputs|, i, x)
  {
    ExtensionRepeatsTraces(k, y, rest, inputs, steps, extra, digest, first);
    TracesAreDetermined(k, y, rest, extra, steps, digest, first, second);
    PairInClass(first, htraces, effective, i);
  }

  /** And with the inputs that the generator makes and extends. */
  lemma BoostedRoundSharesClasses(k: Contract, y: Layout, rest: Cpu, inputs: seq<InputGenerator.Input>, steps: seq<nat>,
                                  taints: seq<seq<bool>>, entropy: nat, extra: seq<InputGenerator.Input>,
                                  digest: seq<int> -> int, first: seq<int>, second: seq<int>,
                                  htraces: seq<int>, effective: seq<Analyser.EquivalenceClass>, i: nat)
    requires TrackableProgram(k) && !k.execution.Bpas?
    requires TaintsOfRound(k, y, rest, inputs, steps, taints) && i < |inputs|
    requires InputGenerator.IsExtension(inputs, taints, entropy, y.DataSize(), extra)
    requires RoundInside(k, y, rest, WordsIn(inputs), steps)
    requires TracesOfRound(k, y, rest, WordsIn(inputs), steps, digest, first)
    requires TracesOfRound(k, y, rest, WordsIn(extra), steps, digest, second)
    requires |first + second| <= |htraces| && Analyser.EffectiveClasses(first + second, htraces, effective)
    ensures exists x :: x in effective && InPairOf(htraces, |inputs|, i, x)
  {
    GeneratorExtendsRound(k, y, rest, inputs, steps, taints, entropy, extra);
    BoostedPairsShareAClass(k, y, rest, WordsIn(inputs), steps, WordsIn(extra), digest, first, second,
                           htraces, effective, i);
  }
}

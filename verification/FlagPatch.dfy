/** The pass that patches undefined flags: instructions that overwrite them are inserted before the
    flags are read. */
module FlagPatch {
  import opened Flags
  import Sets

  datatype FlagSets = FlagSets(read: set<Flag>, write: set<Flag>, undef: set<Flag>)

  /** What an instruction does to the flags: the three lists of its FLAGS operand, as sets. */
  type Effect = e: FlagSets | e.undef !! e.write && e.undef !! e.read witness FlagSets({}, {}, {})

  function EffectOf(m: Modes): Effect {
    FlagSets(set f | f in ReadFlags(m), set f | f in WriteFlags(m), set f | f in UndefFlags(m))
  }

  // ----- Meaning -----

  /** Which flags are defined after an instruction, and after a sequence of them. */
  ghost function Apply(defined: set<Flag>, m: Effect): set<Flag> {
    (defined - m.undef) + m.write
  }

  ghost function ApplyAll(defined: set<Flag>, ms: seq<Effect>): set<Flag> {
    if ms == [] then defined else Apply(ApplyAll(defined, ms[..|ms| - 1]), ms[|ms| - 1])
  }

  /** No instruction reads a flag that is not defined at that point. */
  ghost predicate IsSafe(defined: set<Flag>, block: seq<Effect>) {
    forall i {:trigger block[i]} :: 0 <= i < |block| ==> block[i].read <= ApplyAll(defined, block[..i])
  }

  /** Safe when nothing is defined at the start means: each flag read was written earlier in the block,
      with no instruction in between that leaves it undefined. */
  lemma {:induction false} DefinedMeansWritten(block: seq<Effect>, f: Flag)
    ensures f in ApplyAll({}, block) <==>
              exists j :: 0 <= j < |block| && f in block[j].write
                          && forall k :: j < k < |block| ==> f !in block[k].undef
  {
    if block != [] {
      var n := |block| - 1;
      var p := block[..n];
      DefinedMeansWritten(p, f);
      if f in block[n].write {
        assert f in ApplyAll({}, block);
      } else if f in ApplyAll({}, p) {
        var j :| 0 <= j < |p| && f in p[j].write && forall k :: j < k < |p| ==> f !in p[k].undef;
        if f !in block[n].undef {
          assert f in block[j].write && forall k :: j < k < |block| ==> f !in block[k].undef by {
            forall k | j < k < |block| ensures f !in block[k].undef {
              assert k < n ==> block[k] == p[k];
            }
          }
        }
      }
      if j :| 0 <= j < |block| && f in block[j].write && forall k :: j < k < |block| ==> f !in block[k].undef {
        if j < n {
          assert f in p[j].write && forall k :: j < k < |p| ==> f !in p[k].undef by {
            forall k | j < k < |p| ensures f !in p[k].undef {
              assert p[k] == block[k];
            }
          }
          assert f !in block[n].undef;
        }
      }
    }
  }

  // ----- Choosing patches -----

  /** What is left of the requested flags after some patches. */
  function Left(requested: set<Flag>, patches: seq<Effect>): set<Flag> {
    if patches == [] then requested
    else Left(requested, patches[..|patches| - 1]) - patches[|patches| - 1].write
  }

  /** Each patch writes a flag that is still left, and undefines no live flag except those left. */
  ghost predicate IsChoice(patches: seq<Effect>, requested: set<Flag>, live: set<Flag>) {
    forall j {:trigger patches[j]} :: 0 <= j < |patches| ==>
      && patches[j].undef * live <= Left(requested, patches[..j])
      && patches[j].write * Left(requested, patches[..j]) != {}
  }

  predicate Helps(patch: Effect, undef: set<Flag>, live: set<Flag>) {
    (patch.undef - undef) * live == {} && undef - patch.write != undef
  }

  /** The patches chosen from some candidates: each one that helps, in order. */
  function Select(candidates: seq<Effect>, undef: set<Flag>, live: set<Flag>): seq<Effect> {
    if candidates == [] || undef == {} then []
    else if Helps(candidates[0], undef, live) then
      [candidates[0]] + Select(candidates[1..], undef - candidates[0].write, live)
    else
      Select(candidates[1..], undef, live)
  }

  /** A flag is left over only if every candidate that writes it would leave a live flag undefined. */
  lemma {:induction false} LeftIsHopeless(candidates: seq<Effect>, undef: set<Flag>, live: set<Flag>, f: Flag,
                                          e: Effect)
    requires f in Left(undef, Select(candidates, undef, live)) && e in candidates && f in e.write
    ensures e.undef * live != {}
  {
    LeftIsUnwritten(undef, Select(candidates, undef, live), f);
    if Helps(candidates[0], undef, live) {
      var rest := Select(candidates[1..], undef - candidates[0].write, live);
      assert ([candidates[0]] + rest)[0] == candidates[0];
      forall j | 0 <= j < |rest| ensures f !in rest[j].write {
        assert ([candidates[0]] + rest)[j + 1] == rest[j];
      }
      LeftIsUnwritten(undef - candidates[0].write, rest, f);
      LeftIsHopeless(candidates[1..], undef - candidates[0].write, live, f, e);
    } else if e == candidates[0] {
      assert f in undef && f !in undef - e.write;
      assert (e.undef - undef) * live <= e.undef * live;
    } else {
      LeftIsHopeless(candidates[1..], undef, live, f, e);
    }
  }

  /** So patches are found if for each requested flag some candidate writes it and leaves no live flag undefined. */
  lemma FoundWhenCovered(candidates: seq<Effect>, requested: set<Flag>, live: set<Flag>)
    requires forall f :: f in requested ==> exists e :: e in candidates && f in e.write && e.undef * live == {}
    ensures Left(requested, Select(candidates, requested, live)) == {}
  {
    var left := Left(requested, Select(candidates, requested, live));
    if left != {} {
      var f := Sets.Member(left);
      LeftIsUnwritten(requested, Select(candidates, requested, live), f);
      var e :| e in candidates && f in e.write && e.undef * live == {};
      LeftIsHopeless(candidates, requested, live, f, e);
    }
  }

  datatype Patches = NotFound(left: set<Flag>) | Found(patches: seq<Effect>)

  /** Take each candidate that helps, in order, until no requested flag is left. */
  method FindFlagsPatch(candidates: seq<Effect>, requested: set<Flag>, live: set<Flag>) returns (r: Patches)
    ensures r.Found? ==> IsChoice(r.patches, requested, live) && Left(requested, r.patches) == {}
    ensures r.Found? ==> r.patches == Select(candidates, requested, live)
    ensures r.NotFound? ==> r.left == Left(requested, Select(candidates, requested, live)) != {}
  {
    var patches: seq<Effect> := [];
    var undef := requested;
    for n := 0 to |candidates|
      invariant undef == Left(requested, patches) && IsChoice(patches, requested, live) && undef <= requested
      invariant patches + Select(candidates[n..], undef, live) == Select(candidates, requested, live)
      invariant undef == {} ==> patches == [] && requested == {}
    {
      var patch := candidates[n];
      SelectStep(candidates, n, undef, live);
      var newUndef := (patch.undef - undef) * live;
      var notPatched := undef - patch.write;
      if newUndef == {} && notPatched != undef {
        ExtendChoice(patches, patch, requested, live);
        patches := patches + [patch];
        undef := notPatched;
        if undef == {} {
          return Found(patches);
        }
      }
    }
    assert candidates[|candidates|..] == [] && patches + [] == patches;
    return if undef != {} then NotFound(undef) else Found(patches);
  }

  lemma SelectStep(candidates: seq<Effect>, n: nat, undef: set<Flag>, live: set<Flag>)
    requires n < |candidates|
    ensures undef == {} ==> Select(candidates[n..], undef, live) == Select(candidates[n + 1..], undef, live)
    ensures undef != {} ==> Select(candidates[n..], undef, live) ==
                            if Helps(candidates[n], undef, live) then
                              [candidates[n]] + Select(candidates[n + 1..], undef - candidates[n].write, live)
                            else Select(candidates[n + 1..], undef, live)
  {
    assert candidates[n..][1..] == candidates[n + 1..];
  }

  lemma ExtendChoice(patches: seq<Effect>, patch: Effect, requested: set<Flag>, live: set<Flag>)
    requires IsChoice(patches, requested, live)
    requires Helps(patch, Left(requested, patches), live)
    ensures IsChoice(patches + [patch], requested, live)
    ensures Left(requested, patches + [patch]) == Left(requested, patches) - patch.write
  {
    var r := patches + [patch];
    assert r[..|patches|] == patches;
    var undef := Left(requested, patches);
    assert forall f :: f in undef && f !in undef - patch.write ==> f in patch.write * undef;
    assert forall f :: f in patch.undef * live && f !in undef ==> f in (patch.undef - undef) * live;
    forall j | 0 <= j < |r|
      ensures r[j].undef * live <= Left(requested, r[..j]) && r[j].write * Left(requested, r[..j]) != {}
    {
      if j < |patches| {
        assert r[..j] == patches[..j] && r[j] == patches[j];
      }
    }
  }

  // ----- Patches in list order -----

  lemma {:induction false} ListOrder(patches: seq<Effect>, requested: set<Flag>, live: set<Flag>, defined: set<Flag>)
    requires IsChoice(patches, requested, live) && live - requested <= defined
    ensures live - Left(requested, patches) <= ApplyAll(defined, patches)
  {
    if patches != [] {
      var n := |patches| - 1;
      var p := patches[..n];
      assert IsChoice(p, requested, live) by {
        forall j | 0 <= j < |p|
          ensures p[j].undef * live <= Left(requested, p[..j]) && p[j].write * Left(requested, p[..j]) != {}
        {
          assert p[..j] == patches[..j] && p[j] == patches[j];
        }
      }
      ListOrder(p, requested, live, defined);
    }
  }

  /** Run in list order, the chosen patches define every requested flag and leave no live flag
      undefined. */
  lemma ListOrderIsSafe(patches: seq<Effect>, requested: set<Flag>, live: set<Flag>, defined: set<Flag>)
    requires IsChoice(patches, requested, live) && Left(requested, patches) == {}
    requires requested <= live && live - requested <= defined
    ensures live <= ApplyAll(defined, patches)
  {
    ListOrder(patches, requested, live, defined);
  }

  // ----- Patches in the order of insertion -----

  function Reversed(ms: seq<Effect>): (r: seq<Effect>)
    ensures |r| == |ms|
  {
    if ms == [] then [] else [ms[|ms| - 1]] + Reversed(ms[..|ms| - 1])
  }

  /** No chosen patch leaves a live flag undefined. */
  ghost predicate IsClean(patches: seq<Effect>, live: set<Flag>) {
    forall j :: 0 <= j < |patches| ==> patches[j].undef * live == {}
  }

  lemma {:induction false} ApplyConcat(d: set<Flag>, a: seq<Effect>, b: seq<Effect>)
    ensures ApplyAll(d, a + b) == ApplyAll(ApplyAll(d, a), b)
  {
    if b == [] {
      assert a + b == a;
    } else {
      var n := |b| - 1;
      assert (a + b)[..|a| + n] == a + b[..n];
      ApplyConcat(d, a, b[..n]);
    }
  }

  lemma ApplyReversed(d: set<Flag>, ms: seq<Effect>)
    requires ms != []
    ensures ApplyAll(d, Reversed(ms)) == ApplyAll(Apply(d, ms[|ms| - 1]), Reversed(ms[..|ms| - 1]))
  {
    var last := ms[|ms| - 1];
    ApplyConcat(d, [last], Reversed(ms[..|ms| - 1]));
    assert [last][..0] == [];
    assert ApplyAll(d, [last]) == Apply(d, last);
  }

  lemma {:induction false} CleanReversed(patches: seq<Effect>, requested: set<Flag>, live: set<Flag>,
                                          defined: set<Flag>)
    requires IsClean(patches, live) && live - requested <= defined
    ensures live - Left(requested, patches) <= ApplyAll(defined, Reversed(patches))
    decreases |patches|
  {
    if patches != [] {
      var n := |patches| - 1;
      var p, last := patches[..n], patches[n];
      ApplyReversed(defined, patches);
      assert last.undef * live == {};
      assert live - (requested - last.write) <= Apply(defined, last) by {
        forall f | f in live - (requested - last.write) ensures f in Apply(defined, last) {
          assert f in last.undef ==> f in last.undef * live;
        }
      }
      LeftShrinks(requested, requested - last.write, p, last.write);
      CleanReversed(p, requested - last.write, live, Apply(defined, last));
    }
  }

  lemma {:induction false} LeftShrinks(a: set<Flag>, b: set<Flag>, patches: seq<Effect>, w: set<Flag>)
    requires b == a - w
    ensures Left(b, patches) == Left(a, patches) - w
  {
    if patches != [] {
      LeftShrinks(a, b, patches[..|patches| - 1], w);
    }
  }

  lemma {:induction false} UntouchedStays(d: set<Flag>, ms: seq<Effect>, f: Flag)
    requires f !in d && forall j :: 0 <= j < |ms| ==> f !in ms[j].write
    ensures f !in ApplyAll(d, Reversed(ms))
    decreases |ms|
  {
    if ms != [] {
      ApplyReversed(d, ms);
      UntouchedStays(Apply(d, ms[|ms| - 1]), ms[..|ms| - 1], f);
    }
  }

  lemma {:induction false} StillLeft(requested: set<Flag>, patches: seq<Effect>, f: Flag)
    requires f in Left(requested, patches)
    ensures forall j :: 0 <= j < |patches| ==> f !in patches[j].write
  {
    if patches != [] {
      StillLeft(requested, patches[..|patches| - 1], f);
    }
  }

  lemma {:induction false} UndefinedAtEnd(d: set<Flag>, patches: seq<Effect>, requested: set<Flag>, live: set<Flag>,
                                           i: nat, f: Flag)
    requires IsChoice(patches, requested, live) && i < |patches| && f in patches[i].undef * live
    ensures f !in ApplyAll(d, Reversed(patches))
    decreases |patches|
  {
    var n := |patches| - 1;
    ApplyReversed(d, patches);
    if i == n {
      StillLeft(requested, patches[..n], f);
      UntouchedStays(Apply(d, patches[n]), patches[..n], f);
    } else {
      var p := patches[..n];
      forall j | 0 <= j < |p|
        ensures p[j].undef * live <= Left(requested, p[..j]) && p[j].write * Left(requested, p[..j]) != {}
      {
        assert p[..j] == patches[..j] && p[j] == patches[j];
      }
      UndefinedAtEnd(Apply(d, patches[n]), p, requested, live, i, f);
    }
  }

  /** The pass inserts each patch right behind the instruction, so they run in reverse. That leaves every
      live flag defined exactly when no chosen patch leaves a live flag undefined. */
  lemma ReverseOrderIsSafe(patches: seq<Effect>, requested: set<Flag>, live: set<Flag>, defined: set<Flag>)
    requires IsChoice(patches, requested, live) && Left(requested, patches) == {}
    requires requested <= live && live - requested <= defined
    ensures live <= ApplyAll(defined, Reversed(patches)) <==> IsClean(patches, live)
  {
    if IsClean(patches, live) {
      CleanReversed(patches, requested, live, defined);
    } else {
      var i :| 0 <= i < |patches| && patches[i].undef * live != {};
      var f := Sets.Member(patches[i].undef * live);
      UndefinedAtEnd(defined, patches, requested, live, i, f);
    }
  }

  const ADD_MODES: Modes := [Write, Write, Write, Write, Write, Unused, Unused, Unused, Write]

  /** AND leaves AF undefined and ADD defines every status flag. Chosen in this order to define both CF and
      AF, they run as ADD, AND, and AF is undefined when it is read. */
  lemma ReverseOrderCanFail()
    ensures var chosen := [EffectOf(AND_MODES), EffectOf(ADD_MODES)];
            var live := {CF, AF};
            && Select(chosen, live, live) == chosen
            && live <= ApplyAll({}, chosen)
            && !(live <= ApplyAll({}, Reversed(chosen)))
  {
    var logical, add := EffectOf(AND_MODES), EffectOf(ADD_MODES);
    assert ModeOf(AND_MODES, CF) == Write && ModeOf(AND_MODES, AF) == Undefined;
    assert ModeOf(ADD_MODES, CF) == Write && ModeOf(ADD_MODES, AF) == Write;
    assert forall f :: ModeOf(ADD_MODES, f) != Undefined;
    TwoPatches(logical, add);
  }

  lemma TwoPatches(logical: Effect, add: Effect)
    requires CF in logical.write && AF !in logical.write && AF in logical.undef && CF !in logical.undef
    requires CF in add.write && AF in add.write && add.undef == {}
    ensures var chosen := [logical, add];
            var live := {CF, AF};
            && Select(chosen, live, live) == chosen
            && live <= ApplyAll({}, chosen)
            && !(live <= ApplyAll({}, Reversed(chosen)))
  {
    var live := {CF, AF};
    var chosen := [logical, add];
    assert chosen[1..] == [add] && [add][1..] == [];
    assert chosen[..1] == [logical];
    assert [logical][..0] == [];
    assert AF in live - logical.write && CF !in live - logical.write;
    assert Helps(logical, live, live) && Helps(add, live - logical.write, live);
    assert Select([add], live - logical.write, live) == [add];
    ApplyReversed({}, chosen);
    ApplyReversed(Apply({}, add), [logical]);
    assert ApplyAll({}, [logical]) == Apply({}, logical);
    assert ApplyAll({}, chosen) == Apply(Apply({}, logical), add);
    assert Reversed([logical][..0]) == [];
    assert ApplyAll({}, Reversed(chosen)) == Apply(Apply({}, add), logical);
    assert AF !in Apply(Apply({}, add), logical);
  }

  // ----- The pass over one block -----

  lemma {:induction false} SafeConcat(d: set<Flag>, a: seq<Effect>, b: seq<Effect>)
    ensures IsSafe(d, a + b) <==> IsSafe(d, a) && IsSafe(ApplyAll(d, a), b)
  {
    var c := a + b;
    forall i | 0 <= i < |a| ensures c[i] == a[i] && c[..i] == a[..i] {
    }
    forall i | 0 <= i < |b|
      ensures c[|a| + i] == b[i] && ApplyAll(d, c[..|a| + i]) == ApplyAll(ApplyAll(d, a), b[..i])
    {
      assert c[..|a| + i] == a + b[..i];
      ApplyConcat(d, a, b[..i]);
    }
    if IsSafe(d, c) {
      forall i | 0 <= i < |b| ensures b[i].read <= ApplyAll(ApplyAll(d, a), b[..i]) {
        assert c[|a| + i] == b[i];
      }
    }
    if IsSafe(d, a) && IsSafe(ApplyAll(d, a), b) {
      forall i | 0 <= i < |c| ensures c[i].read <= ApplyAll(d, c[..i]) {
        if i >= |a| {
          assert c[|a| + (i - |a|)] == b[i - |a|];
        }
      }
    }
  }

  ghost predicate ReadNothing(ms: seq<Effect>) {
    forall i :: 0 <= i < |ms| ==> ms[i].read == {}
  }

  lemma {:induction false} InReversed(ms: seq<Effect>, e: Effect)
    ensures e in Reversed(ms) <==> e in ms
  {
    if ms != [] {
      InReversed(ms[..|ms| - 1], e);
      assert ms == ms[..|ms| - 1] + [ms[|ms| - 1]];
    }
  }

  lemma PatchesAreSafe(d: set<Flag>, ms: seq<Effect>)
    requires ReadNothing(ms)
    ensures IsSafe(d, Reversed(ms))
  {
    forall i | 0 <= i < |ms| ensures Reversed(ms)[i].read == {} {
      InReversed(ms, Reversed(ms)[i]);
    }
  }

  lemma {:induction false} LeftIsUnwritten(requested: set<Flag>, patches: seq<Effect>, f: Flag)
    ensures f in Left(requested, patches) <==>
              f in requested && forall j :: 0 <= j < |patches| ==> f !in patches[j].write
  {
    if patches != [] {
      LeftIsUnwritten(requested, patches[..|patches| - 1], f);
    }
  }

  /** The flags live before an instruction and its patches, given those live after them. */
  function LiveBefore(inst: Effect, patches: seq<Effect>, live: set<Flag>): set<Flag> {
    (Left(live, patches) - inst.write) + inst.read
  }

  /** With clean patches, the live flags behind them are all defined exactly when the live flags before
      the instruction are. */
  lemma LivenessStep(d: set<Flag>, inst: Effect, patches: seq<Effect>, live: set<Flag>)
    requires IsChoice(patches, inst.undef * live, live) && Left(inst.undef * live, patches) == {}
    requires IsClean(patches, live)
    ensures live <= ApplyAll(Apply(d, inst), Reversed(patches)) <==> Left(live, patches) - inst.write <= d
  {
    var after := Apply(d, inst);
    var rest := Left(live, patches) - inst.write;
    if rest <= d {
      forall f | f in live ensures f in ApplyAll(after, Reversed(patches)) {
        LeftIsUnwritten(live, patches, f);
        LeftIsUnwritten(inst.undef * live, patches, f);
        if f in Left(live, patches) {
          assert f !in inst.undef * live;
          assert f in after;
          CleanReversed(patches, live - {f}, live, after - (live - {f}) + (after * {f}));
          Monotone(after - (live - {f}) + (after * {f}), after, Reversed(patches));
          LeftIsUnwritten(live - {f}, patches, f);
        } else {
          CleanReversed(patches, live, live, after);
        }
      }
    }
    if live <= ApplyAll(after, Reversed(patches)) {
      forall f | f in rest ensures f in d {
        LeftIsUnwritten(live, patches, f);
        if f !in d {
          UntouchedStays(after, patches, f);
        }
      }
    }
  }

  lemma {:induction false} Monotone(d: set<Flag>, d': set<Flag>, ms: seq<Effect>)
    requires d <= d'
    ensures ApplyAll(d, ms) <= ApplyAll(d', ms)
  {
    if ms != [] {
      Monotone(d, d', ms[..|ms| - 1]);
    }
  }

  /** What the walk maintains: unless some patch was not clean, the block built so far is safe exactly
      when the live flags are defined before it. */
  ghost predicate Tracks(block: seq<Effect>, live: set<Flag>, clean: bool) {
    forall d {:trigger IsSafe(d, block)} :: IsSafe(d, block) <==> clean && live <= d
  }

  lemma TracksStep(block: seq<Effect>, live: set<Flag>, clean: bool, inst: Effect, patches: seq<Effect>)
    requires Tracks(block, live, clean) && ReadNothing(patches)
    requires IsChoice(patches, inst.undef * live, live) && Left(inst.undef * live, patches) == {}
    ensures Tracks([inst] + Reversed(patches) + block, LiveBefore(inst, patches, live), clean && IsClean(patches, live))
  {
    var next := [inst] + Reversed(patches) + block;
    forall d ensures IsSafe(d, next) <==> clean && IsClean(patches, live) && LiveBefore(inst, patches, live) <= d {
      var after := Apply(d, inst);
      assert next == [inst] + (Reversed(patches) + block);
      SafeConcat(d, [inst], Reversed(patches) + block);
      SafeConcat(after, Reversed(patches), block);
      PatchesAreSafe(after, patches);
      assert [inst][..0] == [];
      assert ApplyAll(d, [inst]) == after;
      assert IsSafe(d, [inst]) <==> inst.read <= d by { assert [inst][0] == inst; }
      if IsClean(patches, live) {
        LivenessStep(d, inst, patches, live);
      } else {
        NotClean(after, patches, inst.undef * live, live);
      }
    }
  }

  lemma NotClean(d: set<Flag>, patches: seq<Effect>, requested: set<Flag>, live: set<Flag>)
    requires IsChoice(patches, requested, live) && !IsClean(patches, live)
    ensures !(live <= ApplyAll(d, Reversed(patches)))
  {
    var i :| 0 <= i < |patches| && patches[i].undef * live != {};
    var f := Sets.Member(patches[i].undef * live);
    UndefinedAtEnd(d, patches, requested, live, i, f);
  }

  /** The block with its own instructions, in order, and patches in between. */
  ghost predicate Embeds(original: seq<Effect>, block: seq<Effect>) {
    if original == [] then true
    else exists i :: 0 <= i < |block| && block[i] == original[0] && Embeds(original[1..], block[i + 1..])
  }

  lemma EmbedsMore(inst: Effect, original: seq<Effect>, patches: seq<Effect>, block: seq<Effect>)
    requires Embeds(original, block)
    ensures Embeds([inst] + original, [inst] + patches + block)
  {
    var b := [inst] + patches + block;
    assert ([inst] + original)[1..] == original;
    assert b[0] == inst && b[1..] == patches + block;
    EmbedsBehind(original, patches, block);
  }

  lemma EmbedsBehind(original: seq<Effect>, front: seq<Effect>, block: seq<Effect>)
    requires Embeds(original, block)
    ensures Embeds(original, front + block)
  {
    if original != [] {
      var i :| 0 <= i < |block| && block[i] == original[0] && Embeds(original[1..], block[i + 1..]);
      var j := |front| + i;
      assert (front + block)[j] == original[0] && (front + block)[j + 1..] == block[i + 1..];
    }
  }

  lemma {:induction false} SelectedReadNothing(candidates: seq<Effect>, undef: set<Flag>, live: set<Flag>)
    requires ReadNothing(candidates)
    ensures ReadNothing(Select(candidates, undef, live))
  {
    if candidates != [] {
      SelectedReadNothing(candidates[1..], undef - candidates[0].write, live);
      SelectedReadNothing(candidates[1..], undef, live);
    }
  }

  /** The flags read at or behind position n before they are written, given the patches in between. */
  function LiveAt(block: seq<Effect>, candidates: seq<Effect>, n: nat): set<Flag>
    requires n <= |block|
    decreases |block| - n
  {
    if n == |block| then {}
    else LiveBefore(block[n], PatchesBehind(block, candidates, n), LiveAt(block, candidates, n + 1))
  }

  function PatchesBehind(block: seq<Effect>, candidates: seq<Effect>, n: nat): seq<Effect>
    requires n < |block|
    decreases |block| - n, 0
  {
    var live := LiveAt(block, candidates, n + 1);
    Select(candidates, block[n].undef * live, live)
  }

  /** No patch chosen behind an instruction from n on leaves a live flag undefined. */
  ghost predicate CleanFrom(block: seq<Effect>, candidates: seq<Effect>, n: nat)
    requires n <= |block|
  {
    forall k {:trigger PatchesBehind(block, candidates, k)} :: n <= k < |block| ==>
      IsClean(PatchesBehind(block, candidates, k), LiveAt(block, candidates, k + 1))
  }

  /** The same for those put at the front of the block. */
  ghost predicate CleanFront(block: seq<Effect>, candidates: seq<Effect>) {
    var live := LiveAt(block, candidates, 0);
    IsClean(Select(candidates, live, live), live)
  }

  /** Candidates exist for every flag an instruction from n on leaves undefined while it is live. */
  ghost predicate AllFound(block: seq<Effect>, candidates: seq<Effect>, n: nat)
    requires n <= |block|
  {
    forall k {:trigger PatchesBehind(block, candidates, k)} :: n <= k < |block| ==>
      Left(block[k].undef * LiveAt(block, candidates, k + 1), PatchesBehind(block, candidates, k)) == {}
  }

  ghost predicate FrontFound(block: seq<Effect>, candidates: seq<Effect>) {
    var live := LiveAt(block, candidates, 0);
    Left(live, Select(candidates, live, live)) == {}
  }

  lemma FrontStep(done: seq<Effect>, live: set<Flag>, clean: bool, candidates: seq<Effect>)
    requires Tracks(done, live, clean) && ReadNothing(candidates)
    requires var front := Select(candidates, live, live); IsChoice(front, live, live) && Left(live, front) == {}
    ensures var front := Select(candidates, live, live);
            IsSafe({}, Reversed(front) + done) <==> clean && IsClean(front, live)
  {
    var front := Select(candidates, live, live);
    SelectedReadNothing(candidates, live, live);
    SafeConcat({}, Reversed(front), done);
    PatchesAreSafe({}, front);
    ReverseOrderIsSafe(front, live, live, {});
  }

  lemma BlockStep(block: seq<Effect>, candidates: seq<Effect>, n: nat, done: seq<Effect>)
    requires n < |block| && ReadNothing(candidates)
    requires Tracks(done, LiveAt(block, candidates, n + 1), CleanFrom(block, candidates, n + 1))
    requires var live := LiveAt(block, candidates, n + 1);
             var patches := PatchesBehind(block, candidates, n);
             IsChoice(patches, block[n].undef * live, live) && Left(block[n].undef * live, patches) == {}
    requires Embeds(block[n + 1..], done)
    ensures var next := [block[n]] + Reversed(PatchesBehind(block, candidates, n)) + done;
            && Tracks(next, LiveAt(block, candidates, n), CleanFrom(block, candidates, n))
            && Embeds(block[n..], next)
  {
    var live := LiveAt(block, candidates, n + 1);
    var patches := PatchesBehind(block, candidates, n);
    SelectedReadNothing(candidates, block[n].undef * live, live);
    TracksStep(done, live, CleanFrom(block, candidates, n + 1), block[n], patches);
    assert CleanFrom(block, candidates, n) <==> CleanFrom(block, candidates, n + 1) && IsClean(patches, live);
    EmbedsMore(block[n], block[n + 1..], Reversed(patches), done);
    assert block[n..] == [block[n]] + block[n + 1..];
  }

  // ----- Where the patches are -----

  /** The block from position n on with the patches chosen behind each instruction. */
  ghost function Woven(block: seq<Effect>, candidates: seq<Effect>, n: nat): seq<Effect>
    requires n <= |block|
    decreases |block| - n
  {
    if n == |block| then []
    else [block[n]] + Reversed(PatchesBehind(block, candidates, n)) + Woven(block, candidates, n + 1)
  }

  /** The patches chosen for the front of the block. */
  function FrontPatches(block: seq<Effect>, candidates: seq<Effect>): seq<Effect> {
    var live := LiveAt(block, candidates, 0);
    Select(candidates, live, live)
  }

  lemma {:induction false} WovenLength(block: seq<Effect>, candidates: seq<Effect>, n: nat)
    requires n <= |block|
    ensures |Woven(block, candidates, n)| >= |block| - n
    ensures |Woven(block, candidates, n)| == |block| - n ==>
              forall k {:trigger PatchesBehind(block, candidates, k)} :: n <= k < |block| ==>
                PatchesBehind(block, candidates, k) == []
    decreases |block| - n
  {
    if n < |block| {
      WovenLength(block, candidates, n + 1);
    }
  }

  /** Where the instructions from n on are safe, nothing is patched and no more flags are live than are defined. */
  lemma {:induction false} SafeNeedsNone(block: seq<Effect>, candidates: seq<Effect>, n: nat, d: set<Flag>)
    requires n <= |block| && IsSafe(d, block[n..])
    ensures Woven(block, candidates, n) == block[n..]
    ensures LiveAt(block, candidates, n) <= d
    ensures AllFound(block, candidates, n)
    decreases |block| - n
  {
    if n < |block| {
      var inst, rest := block[n], block[n + 1..];
      assert block[n..] == [inst] + rest;
      SafeConcat(d, [inst], rest);
      assert [inst][..0] == [] && ApplyAll(d, [inst]) == Apply(d, inst);
      assert inst.read <= d by { assert [inst][0] == inst; }
      SafeNeedsNone(block, candidates, n + 1, Apply(d, inst));
      assert inst.undef * LiveAt(block, candidates, n + 1) == {};
      assert PatchesBehind(block, candidates, n) == [];
    }
  }

  ghost predicate IsUnpatched(block: seq<Effect>, candidates: seq<Effect>) {
    Reversed(FrontPatches(block, candidates)) + Woven(block, candidates, 0) == block
  }

  lemma UnpatchedWhenSafe(block: seq<Effect>, candidates: seq<Effect>)
    ensures IsSafe({}, block) ==>
              IsUnpatched(block, candidates) && AllFound(block, candidates, 0) && FrontFound(block, candidates)
  {
    if IsSafe({}, block) {
      assert block[0..] == block;
      SafeNeedsNone(block, candidates, 0, {});
    }
  }

  lemma SafeWhenUnpatched(block: seq<Effect>, candidates: seq<Effect>)
    requires IsUnpatched(block, candidates)
    ensures CleanFrom(block, candidates, 0) && CleanFront(block, candidates)
  {
    WovenLength(block, candidates, 0);
  }

  datatype Outcome = NoPatch | Patched(block: seq<Effect>)

  /** Walk the block backwards, keeping track of the flags that are read later. The block is the body
      and, if it ends in a conditional branch, that branch, which leaves no flag undefined. The result
      reads no flag that may be undefined exactly when all chosen patches were clean. Behind each instruction are
      the patches chosen for it, at the front those for the flags live there, and there is nothing else; a block that
      reads no undefined flag comes back as it is, and no other does. */
  method RunOnBlock(block: seq<Effect>, candidates: seq<Effect>) returns (r: Outcome)
    requires ReadNothing(candidates)
    ensures r.Patched? ==>
              (IsSafe({}, r.block) <==> CleanFrom(block, candidates, 0) && CleanFront(block, candidates))
    ensures r.Patched? ==> Embeds(block, r.block)
    ensures r.Patched? ==> r.block == Reversed(FrontPatches(block, candidates)) + Woven(block, candidates, 0)
    ensures r == Patched(block) <==> IsSafe({}, block)
    ensures r.NoPatch? <==> !AllFound(block, candidates, 0) || !FrontFound(block, candidates)
  {
    var done: seq<Effect> := [];
    var live: set<Flag> := {};
    var n := |block|;
    while n > 0
      invariant 0 <= n <= |block| && live == LiveAt(block, candidates, n)
      invariant AllFound(block, candidates, n)
      invariant Tracks(done, live, CleanFrom(block, candidates, n)) && Embeds(block[n..], done)
      invariant done == Woven(block, candidates, n)
    {
      n := n - 1;
      var inst := block[n];
      var undef := inst.undef * live;
      var patches: seq<Effect> := [];
      if undef != {} {
        var found := FindFlagsPatch(candidates, undef, live);
        if found.NotFound? {
          assert found.left == Left(undef, PatchesBehind(block, candidates, n));
          UnpatchedWhenSafe(block, candidates);
          return NoPatch;
        }
        patches := found.patches;
      }
      assert patches == PatchesBehind(block, candidates, n);
      BlockStep(block, candidates, n, done);
      done, live := [inst] + Reversed(patches) + done, LiveBefore(inst, patches, live);
    }
    assert block[0..] == block;
    var front: seq<Effect> := [];
    if live != {} {
      var found := FindFlagsPatch(candidates, live, live);
      if found.NotFound? {
        UnpatchedWhenSafe(block, candidates);
        return NoPatch;
      }
      front := found.patches;
    }
    FrontStep(done, live, CleanFrom(block, candidates, 0), candidates);
    EmbedsBehind(block, Reversed(front), done);
    r := Patched(Reversed(front) + done);
    UnpatchedWhenSafe(block, candidates);
    if r.block == block {
      SafeWhenUnpatched(block, candidates);
    }
  }
}

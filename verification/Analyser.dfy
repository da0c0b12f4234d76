/** Equivalence classes of inputs by contract trace, and the violations among them. */
module Analyser {
  import opened Arithmetic
  import Sets

  datatype Measurement = Measurement(inputId: nat, ctrace: int, htrace: int)

  /** `htraceMap` groups the measurements by hardware trace, without the "buggy" trace 0; `traces` are its keys,
      in the order in which a dictionary lists them. */
  datatype EquivalenceClass = EquivalenceClass(ctrace: int, measurements: seq<Measurement>,
                                               htraceMap: map<int, seq<Measurement>>, traces: seq<int>)

  // ----- Specification -----

  /** The measurements with this contract trace among the first n, in input order. */
  function ClassOf(ctraces: seq<int>, htraces: seq<int>, ctrace: int, n: nat): seq<Measurement>
    requires n <= |ctraces| <= |htraces|
  {
    if n == 0 then [] else
      ClassOf(ctraces, htraces, ctrace, n - 1)
      + if ctraces[n - 1] == ctrace then [Measurement(n - 1, ctrace, htraces[n - 1])] else []
  }

  function GroupOf(ms: seq<Measurement>, htrace: int): seq<Measurement> {
    if ms == [] then [] else
      var last := ms[|ms| - 1];
      GroupOf(ms[..|ms| - 1], htrace) + if last.htrace == htrace then [last] else []
  }

  ghost predicate GroupedByHtrace(ms: seq<Measurement>, groups: map<int, seq<Measurement>>) {
    forall h :: (h in groups <==> h != 0 && GroupOf(ms, h) != []) && (h in groups ==> groups[h] == GroupOf(ms, h))
  }

  /** The non-zero hardware traces, each where it is first measured. */
  function KeysOf(ms: seq<Measurement>): seq<int> {
    if ms == [] then [] else
      var keys := KeysOf(ms[..|ms| - 1]);
      var h := ms[|ms| - 1].htrace;
      if h == 0 || h in keys then keys else keys + [h]
  }

  ghost predicate SortedByCtrace(cs: seq<EquivalenceClass>) {
    forall i, j :: 0 <= i < j < |cs| ==> cs[i].ctrace < cs[j].ctrace
  }

  /** The effective classes: exactly those with more than one measurement. */
  ghost predicate EffectiveClasses(ctraces: seq<int>, htraces: seq<int>, cs: seq<EquivalenceClass>)
    requires |ctraces| <= |htraces|
  {
    && SortedByCtrace(cs)
    && (forall j :: 0 <= j < |cs| ==> IsClass(ctraces, htraces, cs[j]))
    && (forall c :: |ClassOf(ctraces, htraces, c, |ctraces|)| > 1 ==> HasClass(cs, c))
  }

  // ----- The analyser -----

  lemma GroupsGrow(ms: seq<Measurement>, m: Measurement, groups: map<int, seq<Measurement>>)
    requires GroupedByHtrace(ms, groups)
    ensures var h := m.htrace;
            var group := if h in groups then groups[h] else [];
            GroupedByHtrace(ms + [m], if h == 0 then groups else groups[h := group + [m]])
  {
    assert (ms + [m])[..|ms|] == ms;
    var h := m.htrace;
    var group := if h in groups then groups[h] else [];
    var next := if h == 0 then groups else groups[h := group + [m]];
    forall x
      ensures x in next <==> x != 0 && GroupOf(ms + [m], x) != []
      ensures x in next ==> next[x] == GroupOf(ms + [m], x)
    {
      assert x in groups <==> x != 0 && GroupOf(ms, x) != [];
    }
  }

  lemma KeysGrow(ms: seq<Measurement>, m: Measurement, groups: map<int, seq<Measurement>>)
    requires GroupedByHtrace(ms, groups)
    ensures var h := m.htrace;
            KeysOf(ms + [m]) == if h == 0 || h in groups then KeysOf(ms) else KeysOf(ms) + [h]
  {
    assert (ms + [m])[..|ms|] == ms;
    InKeys(ms, m.htrace);
    InGroup(ms, m.htrace);
    assert m.htrace in groups <==> m.htrace != 0 && GroupOf(ms, m.htrace) != [];
  }

  method BuildHtraceMap(ms: seq<Measurement>) returns (groups: map<int, seq<Measurement>>, keys: seq<int>)
    ensures GroupedByHtrace(ms, groups) && keys == KeysOf(ms)
  {
    groups, keys := map[], [];
    for i := 0 to |ms|
      invariant GroupedByHtrace(ms[..i], groups) && keys == KeysOf(ms[..i])
    {
      assert ms[..i + 1] == ms[..i] + [ms[i]];
      GroupsGrow(ms[..i], ms[i], groups);
      KeysGrow(ms[..i], ms[i], groups);
      if ms[i].htrace != 0 {
        var h := ms[i].htrace;
        var group := if h in groups then groups[h] else [];
        keys := if h in groups then keys else keys + [h];
        groups := groups[h := group + [ms[i]]];
      }
    }
    assert ms[..|ms|] == ms;
  }

  lemma InsertionKeepsOrder(cs: seq<EquivalenceClass>, n: nat, c: EquivalenceClass)
    requires SortedByCtrace(cs) && n <= |cs|
    requires forall i :: 0 <= i < n ==> cs[i].ctrace < c.ctrace
    requires forall i :: n <= i < |cs| ==> c.ctrace < cs[i].ctrace
    ensures SortedByCtrace(cs[..n] + [c] + cs[n..])
  {
    var r := cs[..n] + [c] + cs[n..];
    forall i, j | 0 <= i < j < |r| ensures r[i].ctrace < r[j].ctrace {
      assert forall m :: 0 <= m < |r| ==> r[m] == if m < n then cs[m] else if m == n then c else cs[m - 1];
    }
  }

  /** A class goes behind the classes with smaller contract traces. */
  method InsertSorted(cs: seq<EquivalenceClass>, c: EquivalenceClass) returns (r: seq<EquivalenceClass>, ghost n: nat)
    requires SortedByCtrace(cs) && forall i :: 0 <= i < |cs| ==> cs[i].ctrace != c.ctrace
    ensures SortedByCtrace(r) && n <= |cs| && r == cs[..n] + [c] + cs[n..]
  {
    var m := |cs|;
    while m > 0 && cs[m - 1].ctrace > c.ctrace
      invariant 0 <= m <= |cs|
      invariant forall i :: m <= i < |cs| ==> cs[i].ctrace > c.ctrace
    {
      m := m - 1;
    }
    r, n := cs[..m] + [c] + cs[m..], m;
    InsertionKeepsOrder(cs, m, c);
  }

  ghost predicate Dictionary(ctraces: seq<int>, htraces: seq<int>, classes: map<int, seq<Measurement>>, n: nat)
    requires n <= |ctraces| <= |htraces|
  {
    && (forall c {:trigger c in classes} :: c in classes <==> ClassOf(ctraces, htraces, c, n) != [])
    && (forall c {:trigger classes[c]} :: c in classes ==> classes[c] == ClassOf(ctraces, htraces, c, n))
  }

  lemma DictionaryGrows(ctraces: seq<int>, htraces: seq<int>, classes: map<int, seq<Measurement>>, i: nat)
    requires i < |ctraces| <= |htraces| && Dictionary(ctraces, htraces, classes, i)
    ensures var c := ctraces[i];
            var ms := if c in classes then classes[c] else [];
            Dictionary(ctraces, htraces, classes[c := ms + [Measurement(i, c, htraces[i])]], i + 1)
  {
    var c := ctraces[i];
    var ms := if c in classes then classes[c] else [];
    var next := classes[c := ms + [Measurement(i, c, htraces[i])]];
    assert ms == ClassOf(ctraces, htraces, c, i);
    forall d ensures d in next <==> ClassOf(ctraces, htraces, d, i + 1) != [] {
      assert d in classes <==> ClassOf(ctraces, htraces, d, i) != [];
    }
    forall d | d in next ensures next[d] == ClassOf(ctraces, htraces, d, i + 1) {
      assert d != c ==> classes[d] == ClassOf(ctraces, htraces, d, i);
    }
  }

  method CollectClasses(ctraces: seq<int>, htraces: seq<int>) returns (classes: map<int, seq<Measurement>>)
    requires |ctraces| <= |htraces|
    ensures Dictionary(ctraces, htraces, classes, |ctraces|)
  {
    classes := map[];
    for i := 0 to |ctraces|
      invariant Dictionary(ctraces, htraces, classes, i)
    {
      var c := ctraces[i];
      var ms := if c in classes then classes[c] else [];
      DictionaryGrows(ctraces, htraces, classes, i);
      classes := classes[c := ms + [Measurement(i, c, htraces[i])]];
    }
  }

  ghost predicate IsClass(ctraces: seq<int>, htraces: seq<int>, x: EquivalenceClass)
    requires |ctraces| <= |htraces|
  {
    && x.measurements == ClassOf(ctraces, htraces, x.ctrace, |ctraces|)
    && |x.measurements| > 1
    && GroupedByHtrace(x.measurements, x.htraceMap) && x.traces == KeysOf(x.measurements)
  }

  ghost predicate HasClass(cs: seq<EquivalenceClass>, c: int) {
    exists j :: 0 <= j < |cs| && cs[j].ctrace == c
  }

  lemma InsertionKeepsClasses(cs: seq<EquivalenceClass>, n: nat, x: EquivalenceClass, c: int)
    requires n <= |cs|
    ensures HasClass(cs[..n] + [x] + cs[n..], c) <==> HasClass(cs, c) || x.ctrace == c
  {
    var r := cs[..n] + [x] + cs[n..];
    if HasClass(cs, c) {
      var j :| 0 <= j < |cs| && cs[j].ctrace == c;
      assert r[if j < n then j else j + 1] == cs[j];
    }
    assert r[n] == x;
    if HasClass(r, c) {
      var j :| 0 <= j < |r| && r[j].ctrace == c;
      assert r[j] == if j < n then cs[j] else if j == n then x else cs[j - 1];
    }
  }

  /** The classes found so far: those whose key is no longer pending. */
  ghost predicate Collected(ctraces: seq<int>, htraces: seq<int>, classes: map<int, seq<Measurement>>,
                            pending: set<int>, cs: seq<EquivalenceClass>)
    requires |ctraces| <= |htraces|
  {
    && SortedByCtrace(cs)
    && (forall j :: 0 <= j < |cs| ==> IsClass(ctraces, htraces, cs[j]))
    && (forall c {:trigger HasClass(cs, c)} :: HasClass(cs, c) <==> c in classes && c !in pending && |classes[c]| > 1)
  }

  lemma CollectOne(ctraces: seq<int>, htraces: seq<int>, classes: map<int, seq<Measurement>>, pending: set<int>,
                   cs: seq<EquivalenceClass>, x: EquivalenceClass, n: nat)
    requires |ctraces| <= |htraces| && Collected(ctraces, htraces, classes, pending, cs)
    requires IsClass(ctraces, htraces, x) && x.ctrace in pending && x.ctrace in classes && |classes[x.ctrace]| > 1
    requires n <= |cs| && SortedByCtrace(cs[..n] + [x] + cs[n..])
    ensures Collected(ctraces, htraces, classes, pending - {x.ctrace}, cs[..n] + [x] + cs[n..])
  {
    var r := cs[..n] + [x] + cs[n..];
    forall j | 0 <= j < |r| ensures IsClass(ctraces, htraces, r[j]) {
      assert r[j] == if j < n then cs[j] else if j == n then x else cs[j - 1];
    }
    forall c ensures HasClass(r, c) <==> HasClass(cs, c) || x.ctrace == c {
      InsertionKeepsClasses(cs, n, x, c);
    }
  }

  /** The order in which the classes are visited does not matter: they are sorted in the end. */
  method BuildEquivalenceClasses(ctraces: seq<int>, htraces: seq<int>) returns (effective: seq<EquivalenceClass>)
    requires |ctraces| <= |htraces|
    ensures EffectiveClasses(ctraces, htraces, effective)
  {
    var classes := CollectClasses(ctraces, htraces);
    var pending := classes.Keys;
    effective := [];
    while pending != {}
      invariant pending <= classes.Keys
      invariant Collected(ctraces, htraces, classes, pending, effective)
      decreases |pending|
    {
      var c := Sets.Pick(pending);
      if |classes[c]| > 1 {
        var groups, keys := BuildHtraceMap(classes[c]);
        var x := EquivalenceClass(c, classes[c], groups, keys);
        assert !HasClass(effective, c);
        var next, n := InsertSorted(effective, x);
        CollectOne(ctraces, htraces, classes, pending, effective, x, n);
        effective := next;
      }
      pending := pending - {c};
    }
  }

  // ----- Violations -----

  predicate SubsetOf(a: nat, b: nat) {
    BitAnd(a, b) == a
  }

  function Abs(x: int): nat {
    if x < 0 then -x else x
  }

  /** Bitwise conjunction with an integer: a negative number has all the higher bits set. */
  function And(a: nat, b: int): nat {
    if b >= 0 then BitAnd(a, b) else a - BitAnd(a, -b - 1)
  }

  /** The first of the traces with the largest absolute value. */
  function Largest(htraces: seq<int>): (m: int)
    requires htraces != []
    ensures m in htraces && forall h :: h in htraces ==> Abs(h) <= Abs(m)
  {
    var n := |htraces| - 1;
    if n == 0 then htraces[0]
    else
      var m := Largest(htraces[..n]);
      assert htraces == htraces[..n] + [htraces[n]];
      if Abs(htraces[n]) > Abs(m) then htraces[n] else m
  }

  /** Absolute values are compared, but with a maximum that keeps its sign. */
  predicate AllSubsets(htraces: seq<int>)
    requires htraces != []
  {
    forall h :: h in htraces ==> And(Abs(h), Largest(htraces)) == Abs(h)
  }

  method FindLargest(htraces: seq<int>) returns (max: int)
    requires htraces != []
    ensures max == Largest(htraces)
  {
    max := htraces[0];
    assert htraces[..1] == [htraces[0]];
    for i := 1 to |htraces|
      invariant max == Largest(htraces[..i])
    {
      assert htraces[..i + 1][..i] == htraces[..i];
      if Abs(htraces[i]) > Abs(max) {
        max := htraces[i];
      }
    }
    assert htraces[..|htraces|] == htraces;
  }

  method CheckIfAllSubsets(htraces: seq<int>) returns (r: bool)
    requires htraces != []
    ensures r <==> AllSubsets(htraces)
  {
    var max := FindLargest(htraces);
    for i := 0 to |htraces|
      invariant forall j :: 0 <= j < i ==> And(Abs(htraces[j]), max) == Abs(htraces[j])
    {
      if And(Abs(htraces[i]), max) != Abs(htraces[i]) {
        return false;
      }
    }
    return true;
  }

  /** Of traces that are not negative, all are subsets of the largest exactly when some trace contains all
      others. */
  lemma AllSubsetsMeans(htraces: seq<int>)
    requires htraces != [] && forall h :: h in htraces ==> h >= 0
    ensures AllSubsets(htraces) <==> exists m: nat :: m in htraces && forall h :: h in htraces ==> SubsetOf(Abs(h), m)
  {
    var max := Largest(htraces);
    if m: nat :| m in htraces && forall h :: h in htraces ==> SubsetOf(Abs(h), m) {
      assert SubsetOf(Abs(max), m);
      assert m == max;
    }
  }

  /** Up to a power of two, only zero and that power share no bit with the number below it. */
  lemma {:induction false} NoLowBits(a: nat, k: nat)
    requires a <= Pow2(k)
    ensures BitAnd(a, Pow2(k) - 1) == 0 <==> a == 0 || a == Pow2(k)
    decreases k
  {
    if k > 0 {
      AndOdd(a, Pow2(k - 1) - 1);
      NoLowBits(a / 2, k - 1);
    }
  }

  lemma AndOdd(a: nat, b: nat)
    ensures BitAnd(a, 2 * b + 1) == 2 * BitAnd(a / 2, b) + a % 2
  {
    assert (2 * b + 1) / 2 == b && (2 * b + 1) % 2 == 1;
  }

  /** Only a power of two shares no bit with the number below it. */
  lemma {:induction false} NoBitBelow(p: nat) returns (k: nat)
    requires p > 0 && BitAnd(p, p - 1) == 0
    ensures p == Pow2(k)
  {
    if p == 1 {
      k := 0;
    } else if p % 2 == 1 {
      BitAndSelf(p / 2);
      assert false;
    } else {
      assert (p - 1) / 2 == p / 2 - 1;
      k := NoBitBelow(p / 2);
      k := k + 1;
    }
  }

  /** When the largest trace is negative, nothing but zero and one power of two, of either sign, may occur. */
  lemma NegativeLargest(htraces: seq<int>)
    requires htraces != [] && Largest(htraces) < 0
    ensures AllSubsets(htraces) <==> exists k :: IsOneBit(htraces, k)
  {
    if AllSubsets(htraces) {
      var k := OneBit(htraces);
    }
    if k :| IsOneBit(htraces, k) {
      OneBitIsSubset(htraces, k);
    }
  }

  ghost predicate IsOneBit(htraces: seq<int>, k: nat)
    requires htraces != []
  {
    Largest(htraces) == -Pow2(k) && forall h :: h in htraces ==> Abs(h) == 0 || Abs(h) == Pow2(k)
  }

  lemma OneBit(htraces: seq<int>) returns (k: nat)
    requires htraces != [] && Largest(htraces) < 0 && AllSubsets(htraces)
    ensures IsOneBit(htraces, k)
  {
    var m := Largest(htraces);
    assert And(Abs(m), m) == Abs(m);
    k := NoBitBelow(Abs(m));
    forall h | h in htraces ensures Abs(h) == 0 || Abs(h) == Pow2(k) {
      assert And(Abs(h), m) == Abs(h);
      NoLowBits(Abs(h), k);
    }
  }

  lemma OneBitIsSubset(htraces: seq<int>, k: nat)
    requires htraces != [] && IsOneBit(htraces, k)
    ensures AllSubsets(htraces)
  {
    forall h | h in htraces ensures And(Abs(h), Largest(htraces)) == Abs(h) {
      NoLowBits(Abs(h), k);
    }
  }

  /** So the order of two traces can decide. */
  lemma SignDecides()
    ensures AllSubsets([3, -3]) && !AllSubsets([-3, 3])
  {
    assert [3, -3][..1] == [3] && [-3, 3][..1] == [-3];
    assert Largest([3]) == 3 && Largest([-3]) == -3;
    assert Largest([3, -3]) == 3 && Largest([-3, 3]) == -3;
    BitAndSelf(3);
    assert BitAnd(3, 2) == 2;
    assert 3 in [-3, 3];
  }

  /** The non-zero hardware traces measured with a contract trace. */
  ghost function TracesOf(ctraces: seq<int>, htraces: seq<int>, ctrace: int): set<int>
    requires |ctraces| <= |htraces|
  {
    set i | 0 <= i < |ctraces| && ctraces[i] == ctrace && htraces[i] != 0 :: htraces[i]
  }

  /** There are different traces and, if subsets are permitted, they are not all subsets. */
  predicate Violates(traces: seq<int>, permitSubsets: bool) {
    |traces| >= 2 && (permitSubsets ==> !AllSubsets(traces))
  }

  lemma {:induction false} InGroup(ms: seq<Measurement>, h: int)
    ensures GroupOf(ms, h) != [] <==> exists m :: m in ms && m.htrace == h
  {
    if ms != [] {
      var n := |ms| - 1;
      InGroup(ms[..n], h);
      assert ms == ms[..n] + [ms[n]];
    }
  }

  lemma {:induction false} InKeys(ms: seq<Measurement>, h: int)
    ensures h in KeysOf(ms) <==> h != 0 && exists m :: m in ms && m.htrace == h
  {
    if ms != [] {
      var n := |ms| - 1;
      InKeys(ms[..n], h);
      assert ms == ms[..n] + [ms[n]];
    }
  }

  ghost predicate AreDistinct(keys: seq<int>) {
    forall i, j :: 0 <= i < j < |keys| ==> keys[i] != keys[j]
  }

  lemma OneMoreKey(keys: seq<int>, h: int)
    requires AreDistinct(keys) && h !in keys
    ensures AreDistinct(keys + [h])
  {
    forall i | 0 <= i < |keys| ensures keys[i] != h {
      assert keys[i] in keys;
    }
  }

  lemma {:induction false} KeysAreDistinct(ms: seq<Measurement>)
    ensures AreDistinct(KeysOf(ms))
  {
    if ms != [] {
      KeysAreDistinct(ms[..|ms| - 1]);
      var front, h := KeysOf(ms[..|ms| - 1]), ms[|ms| - 1].htrace;
      if h !in front {
        OneMoreKey(front, h);
      }
    }
  }

  lemma {:induction false} InClass(ctraces: seq<int>, htraces: seq<int>, c: int, n: nat, m: Measurement)
    requires n <= |ctraces| <= |htraces|
    ensures m in ClassOf(ctraces, htraces, c, n)
            <==> m.inputId < n && ctraces[m.inputId] == c && m == Measurement(m.inputId, c, htraces[m.inputId])
  {
    if n > 0 {
      InClass(ctraces, htraces, c, n - 1, m);
    }
  }

  lemma KeysAreTraces(ctraces: seq<int>, htraces: seq<int>, c: int, h: int)
    requires |ctraces| <= |htraces|
    ensures h in KeysOf(ClassOf(ctraces, htraces, c, |ctraces|)) <==> h in TracesOf(ctraces, htraces, c)
  {
    var ms := ClassOf(ctraces, htraces, c, |ctraces|);
    InKeys(ms, h);
    if h in KeysOf(ms) {
      var m :| m in ms && m.htrace == h;
      InClass(ctraces, htraces, c, |ctraces|, m);
    }
    if h in TracesOf(ctraces, htraces, c) {
      var i :| 0 <= i < |ctraces| && ctraces[i] == c && htraces[i] == h && h != 0;
      var m := Measurement(i, c, h);
      InClass(ctraces, htraces, c, |ctraces|, m);
      assert m in ms && m.htrace == h;
    }
  }

  method IsReported(x: EquivalenceClass, permitSubsets: bool) returns (report: bool)
    ensures report <==> Violates(x.traces, permitSubsets)
  {
    report := |x.traces| >= 2;
    if report && permitSubsets {
      var subsets := CheckIfAllSubsets(x.traces);
      report := !subsets;
    }
  }

  predicate Distinguished(ctraces: seq<int>, htraces: seq<int>, c: int, permitSubsets: bool)
    requires |ctraces| <= |htraces|
  {
    Violates(KeysOf(ClassOf(ctraces, htraces, c, |ctraces|)), permitSubsets)
  }

  /** What that means: two inputs with this contract trace have different hardware traces and, if subsets
      are permitted and no trace is negative, no hardware trace contains all others. */
  lemma DistinguishedMeans(ctraces: seq<int>, htraces: seq<int>, c: int, permitSubsets: bool)
    requires |ctraces| <= |htraces| && (permitSubsets ==> forall h :: h in htraces ==> h >= 0)
    ensures var traces := TracesOf(ctraces, htraces, c);
            Distinguished(ctraces, htraces, c, permitSubsets) <==>
              && (exists a, b :: a in traces && b in traces && a != b)
              && (permitSubsets ==> !exists m: nat :: m in traces && forall h :: h in traces ==> SubsetOf(Abs(h), m))
  {
    var traces := TracesOf(ctraces, htraces, c);
    var keys := KeysOf(ClassOf(ctraces, htraces, c, |ctraces|));
    forall h ensures h in keys <==> h in traces {
      KeysAreTraces(ctraces, htraces, c, h);
    }
    KeysAreDistinct(ClassOf(ctraces, htraces, c, |ctraces|));
    TwoKeys(keys);
    if permitSubsets && keys != [] {
      forall h | h in keys ensures h >= 0 {
        assert h in traces;
        var i :| 0 <= i < |ctraces| && htraces[i] == h;
        assert htraces[i] in htraces;
      }
      AllSubsetsMeans(keys);
    }
  }

  lemma TwoKeys(keys: seq<int>)
    requires AreDistinct(keys)
    ensures |keys| >= 2 <==> exists a, b :: a in keys && b in keys && a != b
  {
    if |keys| >= 2 {
      assert keys[0] in keys && keys[1] in keys && keys[0] != keys[1];
    }
    if a, b :| a in keys && b in keys && a != b {
      var i :| 0 <= i < |keys| && keys[i] == a;
      var j :| 0 <= j < |keys| && keys[j] == b;
    }
  }

  /** `reported` are the distinguished classes among `cs`. */
  ghost predicate Reports(ctraces: seq<int>, htraces: seq<int>, permitSubsets: bool, cs: seq<EquivalenceClass>,
                          reported: seq<EquivalenceClass>)
    requires |ctraces| <= |htraces|
  {
    && (forall j :: 0 <= j < |reported| ==> IsClass(ctraces, htraces, reported[j]))
    && (forall c {:trigger HasClass(reported, c)} ::
          HasClass(reported, c) <==> HasClass(cs, c) && Distinguished(ctraces, htraces, c, permitSubsets))
  }

  lemma ReportsNext(ctraces: seq<int>, htraces: seq<int>, permitSubsets: bool, cs: seq<EquivalenceClass>,
                    reported: seq<EquivalenceClass>, x: EquivalenceClass, report: bool)
    requires |ctraces| <= |htraces| && Reports(ctraces, htraces, permitSubsets, cs, reported)
    requires IsClass(ctraces, htraces, x) && (report <==> Violates(x.traces, permitSubsets))
    ensures Reports(ctraces, htraces, permitSubsets, cs + [x], if report then reported + [x] else reported)
  {
    var next := if report then reported + [x] else reported;
    forall c ensures HasClass(next, c) <==> HasClass(cs + [x], c) && Distinguished(ctraces, htraces, c, permitSubsets) {
      ExtendClasses(cs, x, c);
      ExtendClasses(reported, x, c);
    }
  }

  method ReportClasses(ctraces: seq<int>, htraces: seq<int>, permitSubsets: bool, classes: seq<EquivalenceClass>)
    returns (violations: seq<EquivalenceClass>)
    requires |ctraces| <= |htraces| && forall j :: 0 <= j < |classes| ==> IsClass(ctraces, htraces, classes[j])
    requires SortedByCtrace(classes)
    ensures Reports(ctraces, htraces, permitSubsets, classes, violations)
    ensures SortedByCtrace(violations)
  {
    violations := [];
    for n := 0 to |classes|
      invariant Reports(ctraces, htraces, permitSubsets, classes[..n], violations)
      invariant SortedByCtrace(violations)
      invariant forall j, i :: 0 <= j < |violations| && n <= i < |classes| ==> violations[j].ctrace < classes[i].ctrace
    {
      var report := IsReported(classes[n], permitSubsets);
      ReportsNext(ctraces, htraces, permitSubsets, classes[..n], violations, classes[n], report);
      assert classes[..n] + [classes[n]] == classes[..n + 1];
      if report {
        violations := violations + [classes[n]];
      }
    }
    assert classes[..|classes|] == classes;
  }

  /** A class is reported exactly when its inputs, equal under the contract, differ in hardware; each such class
      once, in the order of the contract traces. */
  method FilterViolations(ctraces: seq<int>, htraces: seq<int>, permitSubsets: bool)
    returns (violations: seq<EquivalenceClass>)
    requires |ctraces| <= |htraces|
    ensures forall j :: 0 <= j < |violations| ==> IsClass(ctraces, htraces, violations[j])
    ensures forall c :: HasClass(violations, c) <==> Distinguished(ctraces, htraces, c, permitSubsets)
    ensures SortedByCtrace(violations)
  {
    var classes := BuildEquivalenceClasses(ctraces, htraces);
    violations := ReportClasses(ctraces, htraces, permitSubsets, classes);
    ReportsAll(ctraces, htraces, permitSubsets, classes, violations);
  }

  lemma ReportsAll(ctraces: seq<int>, htraces: seq<int>, permitSubsets: bool, cs: seq<EquivalenceClass>,
                   reported: seq<EquivalenceClass>)
    requires |ctraces| <= |htraces| && EffectiveClasses(ctraces, htraces, cs)
    requires Reports(ctraces, htraces, permitSubsets, cs, reported)
    ensures forall c :: HasClass(reported, c) <==> Distinguished(ctraces, htraces, c, permitSubsets)
  {
    forall c | Distinguished(ctraces, htraces, c, permitSubsets) ensures HasClass(cs, c) {
      ViolationIsEffective(ctraces, htraces, c, permitSubsets);
    }
  }

  lemma ExtendClasses(cs: seq<EquivalenceClass>, x: EquivalenceClass, c: int)
    ensures HasClass(cs + [x], c) <==> HasClass(cs, c) || x.ctrace == c
  {
    InsertionKeepsClasses(cs, |cs|, x, c);
    assert cs[..|cs|] + [x] + cs[|cs|..] == cs + [x];
  }

  lemma ViolationIsEffective(ctraces: seq<int>, htraces: seq<int>, c: int, permitSubsets: bool)
    requires |ctraces| <= |htraces| && Distinguished(ctraces, htraces, c, permitSubsets)
    ensures |ClassOf(ctraces, htraces, c, |ctraces|)| > 1
  {
    FewerKeys(ClassOf(ctraces, htraces, c, |ctraces|));
  }

  lemma {:induction false} FewerKeys(ms: seq<Measurement>)
    ensures |KeysOf(ms)| <= |ms|
  {
    if ms != [] {
      FewerKeys(ms[..|ms| - 1]);
    }
  }
}

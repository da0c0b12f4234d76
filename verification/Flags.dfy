/** The FLAGS operand of an instruction: one access mode for each of the nine status flags, and the
    three flag lists that the taint tracker and the flag-patching pass work with. */
module Flags {

  datatype Flag = CF | PF | AF | ZF | SF | TF | IF | DF | OF

  /** The mode strings "r", "w", "r/w", "r/cw" and "undef"; `Unused` is every other string. */
  datatype Mode = Unused | Read | Write | ReadWrite | ReadCondWrite | Undefined

  const FLAG_NAMES: seq<Flag> := [CF, PF, AF, ZF, SF, TF, IF, DF, OF]

  const UNUSED: seq<Mode> :=
    [Unused, Unused, Unused, Unused, Unused, Unused, Unused, Unused, Unused]

  /** The mode list of a FLAGS operand; its constructor asserts the length. */
  type Modes = m: seq<Mode> | |m| == |FLAG_NAMES| witness UNUSED

  /** JZ reads ZF; AND writes all status flags but AF, which it leaves undefined. */
  const READS_ZF: Modes := [Unused, Unused, Unused, Read, Unused, Unused, Unused, Unused, Unused]
  const AND_MODES: Modes := [Write, Write, Undefined, Write, Write, Unused, Unused, Unused, Write]

  function Position(f: Flag): (i: nat)
    ensures i < |FLAG_NAMES| && FLAG_NAMES[i] == f
    ensures forall k :: 0 <= k < |FLAG_NAMES| && FLAG_NAMES[k] == f ==> k == i
  {
    match f
    case CF => 0 case PF => 1 case AF => 2 case ZF => 3 case SF => 4
    case TF => 5 case IF => 6 case DF => 7 case OF => 8
  }

  function ModeOf(m: Modes, f: Flag): Mode {
    m[Position(f)]
  }

  /** The flags among the first `n` whose mode is one of `kinds`, in the order of the names. */
  function FlagList(m: Modes, kinds: set<Mode>, n: nat): (r: seq<Flag>)
    requires n <= |m|
    ensures forall f :: f in r <==> Position(f) < n && ModeOf(m, f) in kinds
  {
    if n == 0 then []
    else FlagList(m, kinds, n - 1) + if m[n - 1] in kinds then [FLAG_NAMES[n - 1]] else []
  }

  function ReadFlags(m: Modes): (r: seq<Flag>)
    ensures forall f :: f in r <==> ModeOf(m, f) in {Read, ReadWrite, ReadCondWrite}
  {
    FlagList(m, {Read, ReadWrite, ReadCondWrite}, |m|)
  }

  function WriteFlags(m: Modes): (r: seq<Flag>)
    ensures forall f :: f in r <==> ModeOf(m, f) in {Write, ReadWrite, ReadCondWrite}
  {
    FlagList(m, {Write, ReadWrite, ReadCondWrite}, |m|)
  }

  function UndefFlags(m: Modes): (r: seq<Flag>)
    ensures forall f :: f in r <==> ModeOf(m, f) == Undefined
  {
    FlagList(m, {Undefined}, |m|)
  }
}

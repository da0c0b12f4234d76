/** The machine under the contract model: registers, flags and byte memory, and instructions given by
    the operand lists that the tool sees plus an arbitrary effect on exactly those operands. */
module Machine {
  import opened Flags

  const TWO64: int := 0x1_0000_0000_0000_0000

  // ----- State -----

  ghost predicate Total<K(!new), V>(m: imap<K, V>) {
    forall k :: k in m
  }

  ghost predicate Words64(r: imap<string, int>) {
    forall k :: k in r ==> 0 <= r[k] < TWO64
  }

  /** Memory is total: every address holds a byte. */
  type Mem = m: imap<int, int> | Total(m) ghost witness imap a: int | true :: 0

  /** 64-bit registers, by normalised name ("A", "C", "SI", "RIP", "14", ...). */
  type RegFile = r: imap<string, int> | Total(r) && Words64(r)
    ghost witness imap k: string | true :: 0

  type FlagFile = f: imap<Flag, bool> | Total(f) ghost witness imap k: Flag | true :: false

  datatype Cpu = Cpu(pc: int, regs: RegFile, flags: FlagFile, mem: Mem)

  function ReadBytes(m: Mem, a: int, n: nat): (bs: seq<int>)
    ensures |bs| == n && forall i {:trigger bs[i]} :: 0 <= i < n ==> bs[i] == m[a + i]
  {
    seq(n, i requires 0 <= i < n => m[a + i])
  }

  /** Memory with the first `n` of the bytes written. */
  function WriteFirst(m: Mem, a: int, bs: seq<int>, n: nat): (r: Mem)
    requires n <= |bs|
    ensures forall x {:trigger r[x]} :: r[x] == if a <= x < a + n then bs[x - a] else m[x]
  {
    if n == 0 then m else WriteFirst(m, a, bs, n - 1)[a + n - 1 := bs[n - 1]]
  }

  function WriteBytes(m: Mem, a: int, bs: seq<int>): (r: Mem)
    ensures forall x {:trigger r[x]} :: r[x] == if a <= x < a + |bs| then bs[x - a] else m[x]
  {
    WriteFirst(m, a, bs, |bs|)
  }

  function LittleEndian(bs: seq<int>): int {
    if bs == [] then 0 else bs[0] + 256 * LittleEndian(bs[1..])
  }

  // ----- Instructions -----

  datatype Operand =
    | RegOp(reg: string, src: bool, dest: bool)
    | FlagsOp(modes: Modes)
    | MemOp(addressRegs: seq<string>)
    | OtherOp  // immediates, labels and AGEN operands: the tracker skips all of them

  datatype Access = Access(addr: int, size: nat)

  /** Everything an effect may depend on: the listed source operands and the accesses made. */
  datatype View = View(pc: int, regs: seq<int>, flags: seq<bool>, loaded: seq<seq<int>>,
                       touched: seq<Access>)

  /** `operands` are the explicit operands followed by the implicit ones. The addresses depend on the
      address registers alone; a written register may also keep part of its own old value. */
  datatype Insn = Insn(
    name: string,
    code: seq<int>,
    operands: seq<Operand>,
    controlFlow: bool,
    loads: (int, seq<int>) -> seq<Access>,
    stores: (int, seq<int>) -> seq<Access>,
    next: View -> int,
    regOut: (string, int, View) -> int,
    flagOut: (Flag, View) -> bool,
    storeOut: (nat, nat, View) -> int)

  function SrcRegs(ops: seq<Operand>): seq<string> {
    if ops == [] then [] else
      var last := ops[|ops| - 1];
      SrcRegs(ops[..|ops| - 1]) + if last.RegOp? && last.src then [last.reg] else []
  }

  function DestRegs(ops: seq<Operand>): seq<string> {
    if ops == [] then [] else
      var last := ops[|ops| - 1];
      DestRegs(ops[..|ops| - 1]) + if last.RegOp? && last.dest then [last.reg] else []
  }

  function AddressRegs(ops: seq<Operand>): seq<string> {
    if ops == [] then [] else
      var last := ops[|ops| - 1];
      AddressRegs(ops[..|ops| - 1]) + if last.MemOp? then last.addressRegs else []
  }

  /** The modes of the last FLAGS operand: each one overwrites the lists of the one before. */
  function FlagModes(ops: seq<Operand>): Modes {
    if ops == [] then UNUSED else
      var last := ops[|ops| - 1];
      if last.FlagsOp? then last.modes else FlagModes(ops[..|ops| - 1])
  }

  // ----- Conditional jumps, as the instruction set defines them -----

  datatype Jump = NoJump | Jcc(cc: nat, disp: int) | LoopNe(disp: int) | LoopEq(disp: int)
                | Loop(disp: int) | JumpCxz(disp: int)

  function Signed(v: int, half: int): int {
    if v < half then v else v - 2 * half
  }

  /** Opcodes 70-7F cb, 0F 80-8F cd and E0-E3 cb; displacements are signed. */
  function IsaJump(code: seq<int>): Jump {
    if |code| == 2 && 0x70 <= code[0] <= 0x7F then Jcc(code[0] - 0x70, Signed(code[1], 0x80))
    else if |code| == 2 && code[0] == 0xE0 then LoopNe(Signed(code[1], 0x80))
    else if |code| == 2 && code[0] == 0xE1 then LoopEq(Signed(code[1], 0x80))
    else if |code| == 2 && code[0] == 0xE2 then Loop(Signed(code[1], 0x80))
    else if |code| == 2 && code[0] == 0xE3 then JumpCxz(Signed(code[1], 0x80))
    else if |code| == 6 && code[0] == 0x0F && 0x80 <= code[1] <= 0x8F then
      Jcc(code[1] - 0x80, Signed(LittleEndian(code[2..]), 0x8000_0000))
    else NoJump
  }

  /** Condition codes: the upper three bits select a test, the lowest bit negates it. */
  predicate Condition(cc: nat, f: FlagFile) {
    var test := match cc / 2
      case 0 => f[OF]
      case 1 => f[CF]
      case 2 => f[ZF]
      case 3 => f[CF] || f[ZF]
      case 4 => f[SF]
      case 5 => f[PF]
      case 6 => f[SF] != f[OF]
      case _ => f[ZF] || f[SF] != f[OF];
    test == (cc % 2 == 0)
  }

  /** LOOP instructions decrement RCX, modulo 2^64, and then test it. */
  predicate IsLoop(j: Jump) {
    j.LoopNe? || j.LoopEq? || j.Loop?
  }

  function Decrement(rcx: int): int {
    (rcx - 1) % TWO64
  }

  predicate Taken(j: Jump, f: FlagFile, rcx: int)
    requires !j.NoJump?
  {
    match j
    case Jcc(cc, _) => Condition(cc, f)
    case LoopNe(_) => Decrement(rcx) != 0 && !f[ZF]
    case LoopEq(_) => Decrement(rcx) != 0 && f[ZF]
    case Loop(_) => Decrement(rcx) != 0
    case JumpCxz(_) => rcx == 0
  }

  // ----- Execution -----

  function RegValues(regs: RegFile, names: seq<string>): (r: seq<int>)
    ensures |r| == |names| && forall i {:trigger r[i]} :: 0 <= i < |names| ==> r[i] == regs[names[i]]
  {
    seq(|names|, i requires 0 <= i < |names| => regs[names[i]])
  }

  function FlagValues(flags: FlagFile, names: seq<Flag>): (r: seq<bool>)
    ensures |r| == |names| && forall i {:trigger r[i]} :: 0 <= i < |names| ==> r[i] == flags[names[i]]
  {
    seq(|names|, i requires 0 <= i < |names| => flags[names[i]])
  }

  function Loaded(m: Mem, loads: seq<Access>): (r: seq<seq<int>>)
    ensures |r| == |loads|
    ensures forall i {:trigger r[i]} :: 0 <= i < |loads| ==> r[i] == ReadBytes(m, loads[i].addr, loads[i].size)
  {
    seq(|loads|, i requires 0 <= i < |loads| => ReadBytes(m, loads[i].addr, loads[i].size))
  }

  /** Conditional jumps access no memory. */
  function LoadsOf(i: Insn, c: Cpu): seq<Access> {
    if IsaJump(i.code).NoJump? then i.loads(c.pc, RegValues(c.regs, AddressRegs(i.operands))) else []
  }

  function StoresOf(i: Insn, c: Cpu): seq<Access> {
    if IsaJump(i.code).NoJump? then i.stores(c.pc, RegValues(c.regs, AddressRegs(i.operands))) else []
  }

  function ViewOf(i: Insn, c: Cpu): View {
    View(c.pc, RegValues(c.regs, SrcRegs(i.operands)),
         FlagValues(c.flags, ReadFlags(FlagModes(i.operands))),
         Loaded(c.mem, LoadsOf(i, c)), LoadsOf(i, c) + StoresOf(i, c))
  }

  function SetRegs(i: Insn, v: View, regs: RegFile, dests: seq<string>): (r: RegFile)
    ensures forall k {:trigger r[k]} :: r[k] == if k in dests then i.regOut(k, regs[k], v) % TWO64 else regs[k]
  {
    if dests == [] then regs else
      var k := dests[|dests| - 1];
      SetRegs(i, v, regs, dests[..|dests| - 1])[k := i.regOut(k, regs[k], v) % TWO64]
  }

  /** A written flag gets its new value; a flag left undefined gets a fixed one. */
  function NewFlag(i: Insn, v: View, flags: FlagFile, f: Flag): bool {
    match ModeOf(FlagModes(i.operands), f)
    case Write | ReadWrite | ReadCondWrite => i.flagOut(f, v)
    case Undefined => false
    case _ => flags[f]
  }

  function SetFlags(i: Insn, v: View, flags: FlagFile, n: nat): (r: FlagFile)
    requires n <= |FLAG_NAMES|
    ensures forall f {:trigger r[f]} :: r[f] == if Position(f) < n then NewFlag(i, v, flags, f) else flags[f]
  {
    if n == 0 then flags
    else SetFlags(i, v, flags, n - 1)[FLAG_NAMES[n - 1] := NewFlag(i, v, flags, FLAG_NAMES[n - 1])]
  }

  function StoreBytes(i: Insn, v: View, k: nat, size: nat): (bs: seq<int>)
    ensures |bs| == size && forall b {:trigger bs[b]} :: 0 <= b < size ==> bs[b] == i.storeOut(k, b, v) % 256
  {
    seq(size, b requires 0 <= b < size => i.storeOut(k, b, v) % 256)
  }

  function DoStores(i: Insn, v: View, m: Mem, stores: seq<Access>): Mem {
    if stores == [] then m else
      var k := |stores| - 1;
      WriteBytes(DoStores(i, v, m, stores[..k]), stores[k].addr, StoreBytes(i, v, k, stores[k].size))
  }

  /** The effect of one instruction, without any hooks. */
  function Exec(i: Insn, c: Cpu): Cpu {
    var size := |i.code|;
    var j := IsaJump(i.code);
    if !j.NoJump? then
      var rcx := c.regs["C"];
      Cpu(if Taken(j, c.flags, rcx) then c.pc + size + j.disp else c.pc + size,
          if IsLoop(j) then c.regs["C" := Decrement(rcx)] else c.regs, c.flags, c.mem)
    else
      var v := ViewOf(i, c);
      Cpu(if i.controlFlow then i.next(v) else c.pc + size,
          SetRegs(i, v, c.regs, DestRegs(i.operands)),
          SetFlags(i, v, c.flags, |FLAG_NAMES|),
          DoStores(i, v, c.mem, StoresOf(i, c)))
  }

  // ----- Decoding in the conditional-branch contract -----

  /** The sixteen conditions of the `jumps` and `multibyte_jmp` tables, by the low opcode nibble. */
  predicate JumpCondition(n: nat, f: FlagFile) {
    match n
    case 0x0 => f[OF]
    case 0x1 => !f[OF]
    case 0x2 => f[CF]
    case 0x3 => !f[CF]
    case 0x4 => f[ZF]
    case 0x5 => !f[ZF]
    case 0x6 => f[CF] || f[ZF]
    case 0x7 => !f[CF] && !f[ZF]
    case 0x8 => f[SF]
    case 0x9 => !f[SF]
    case 0xA => f[PF]
    case 0xB => !f[PF]
    case 0xC => !f[SF] != !f[OF]
    case 0xD => !f[SF] == !f[OF]
    case 0xE => f[ZF] || !f[SF] != !f[OF]
    case 0xF => !f[ZF] && !f[SF] == !f[OF]
    case _ => false
  }

  /** Each table entry returns the displacement bytes, whether the jump is taken, and whether it is a
      LOOP. The displacement is read as an unsigned number; 0 means "not a conditional jump". */
  function DecodeTarget(code: seq<int>): int
    requires code != [] && (code[0] == 0x0F ==> |code| > 1)
  {
    var op := code[0];
    var bytes := if 0x70 <= op <= 0x7F || 0xE0 <= op <= 0xE3 then code[1..]
                 else if op == 0x0F && 0x80 <= code[1] <= 0x8F then code[2..]
                 else [0];
    if |bytes| == 1 then bytes[0] else LittleEndian(bytes)
  }

  predicate DecodeWillJump(code: seq<int>, f: FlagFile, rcx: int)
    requires code != [] && (code[0] == 0x0F ==> |code| > 1)
  {
    var op := code[0];
    if 0x70 <= op <= 0x7F then JumpCondition(op - 0x70, f)
    else if op == 0xE0 then rcx != 1 && !f[ZF]
    else if op == 0xE1 then rcx != 1 && f[ZF]
    else if op == 0xE2 then rcx != 1
    else if op == 0xE3 then rcx == 0
    else op == 0x0F && 0x80 <= code[1] <= 0x8F && JumpCondition(code[1] - 0x80, f)
  }

  predicate DecodeIsLoop(code: seq<int>)
    requires code != []
  {
    0xE0 <= code[0] <= 0xE2
  }

  /** An encoding the instruction set has: bytes, at least one, and fixed lengths for the opcodes
      that the decoder looks at. */
  predicate ValidEncoding(code: seq<int>) {
    && code != []
    && (forall i :: 0 <= i < |code| ==> 0 <= code[i] < 256)
    && (0x70 <= code[0] <= 0x7F || 0xE0 <= code[0] <= 0xE3 ==> |code| == 2)
    && (code[0] == 0x0F ==> |code| > 1)
    && (code[0] == 0x0F && 0x80 <= code[1] <= 0x8F ==> |code| == 6)
  }

  lemma LittleEndian4(bs: seq<int>)
    requires |bs| == 4 && forall i :: 0 <= i < 4 ==> 0 <= bs[i] < 256
    ensures 0 <= LittleEndian(bs) < 0x1_0000_0000
  {
    assert bs[1..][1..] == bs[2..] && bs[2..][1..] == bs[3..] && bs[3..][1..] == [];
    assert LittleEndian(bs[3..]) == bs[3];
    assert LittleEndian(bs[2..]) == bs[2] + 256 * bs[3];
    assert LittleEndian(bs[1..]) == bs[1] + 256 * LittleEndian(bs[2..]);
  }

  /** The decoder agrees with the instruction set on which instructions are conditional jumps (those
      with displacement 0 aside), on whether they jump, and on the decrement of RCX. The target it
      computes is the true one exactly for forward displacements. */
  lemma DecodeIsCorrect(code: seq<int>, f: FlagFile, rcx: int)
    requires ValidEncoding(code) && 0 <= rcx < TWO64
    ensures var j := IsaJump(code);
            && DecodeTarget(code) >= 0
            && (DecodeTarget(code) != 0 <==> !j.NoJump? && j.disp != 0)
            && (!j.NoJump? ==>
                  && DecodeWillJump(code, f, rcx) == Taken(j, f, rcx)
                  && DecodeIsLoop(code) == IsLoop(j)
                  && (DecodeTarget(code) == j.disp <==> j.disp >= 0))
  {
    if code[0] == 0x0F && 0x80 <= code[1] <= 0x8F {
      LittleEndian4(code[2..]);
      ConditionIsTable(code[1] - 0x80, f);
    } else if 0x70 <= code[0] <= 0x7F {
      ConditionIsTable(code[0] - 0x70, f);
    }
  }

  lemma ConditionIsTable(cc: nat, f: FlagFile)
    requires cc < 16
    ensures JumpCondition(cc, f) == Condition(cc, f)
  {
    assert cc == 2 * (cc / 2) + cc % 2;
  }
}
